/**
 * The few Python `str` operations the two pipeline wrappers rely on:
 * `p in s`, `s.find(p)`, `s.strip()`, `s.lower()` (as far as ASCII phrase
 * matching can observe it), `s.split(c)`, `sep.join(parts)` and slicing.
 */
module Strings {

  /** `p` occurs in `s` starting at index `i`. */
  predicate OccursAt(s: string, p: string, i: int)
  {
    0 <= i && i + |p| <= |s| && s[i..i + |p|] == p
  }

  /** The first occurrence of `p` in `s` at or after `from`, or -1. */
  function FindFrom(s: string, p: string, from: nat): (r: int)
    requires from <= |s|
    ensures r == -1 || (from <= r && OccursAt(s, p, r))
    ensures r == -1 ==> forall j :: from <= j ==> !OccursAt(s, p, j)
    ensures r != -1 ==> forall j :: from <= j < r ==> !OccursAt(s, p, j)
    decreases |s| - from
  {
    if from + |p| > |s| then -1
    else if s[from..from + |p|] == p then from
    else FindFrom(s, p, from + 1)
  }

  /** Python's `s.find(p)`: the index of the first occurrence, or -1 when there is none. */
  function Find(s: string, p: string): (r: int)
    ensures r == -1 ==> forall j :: 0 <= j ==> !OccursAt(s, p, j)
    ensures r != -1 ==> OccursAt(s, p, r) && forall j :: 0 <= j < r ==> !OccursAt(s, p, j)
  {
    FindFrom(s, p, 0)
  }

  /** Python's `p in s`, which holds exactly when `s.find(p)` is not -1. */
  predicate Contains(s: string, p: string)
  {
    Find(s, p) != -1
  }

  /** `p in s` holds exactly when `p` occurs somewhere in `s`. */
  lemma {:induction false} ContainsOccurs(s: string, p: string)
    ensures Contains(s, p) <==> exists i :: 0 <= i && OccursAt(s, p, i)
  {
    if Contains(s, p) {
      assert OccursAt(s, p, Find(s, p));
    }
  }

  /** Appending text never moves an occurrence that is already complete. */
  lemma {:induction false} FindAppend(s: string, t: string, p: string)
    requires Contains(s, p)
    ensures Contains(s + t, p)
    ensures Find(s + t, p) == Find(s, p)
  {
    var r := Find(s, p);
    SliceAppend(s, t, r, r + |p|);
    assert OccursAt(s + t, p, r);
    forall j | 0 <= j < r
      ensures !OccursAt(s + t, p, j)
    {
      SliceAppend(s, t, j, j + |p|);
      assert !OccursAt(s, p, j);
    }
  }

  /** Where `p` occurs at `j`, each character it covers is `p`'s. */
  lemma {:induction false} OccursAtChar(s: string, p: string, j: int, i: int)
    requires 0 <= j <= i < j + |p|
    ensures OccursAt(s, p, j) ==> i < |s| && s[i] == p[i - j]
  {
    if OccursAt(s, p, j) {
      assert s[j..j + |p|][i - j] == s[i];
    }
  }

  /** `x` is a tail of `s`. */
  predicate IsSuffix(x: string, s: string)
  {
    |x| <= |s| && x == s[|s| - |x|..]
  }

  /** Python's slice `s[a:b]` for in-range bounds: empty when `a` is past `b`. */
  function Slice(s: string, a: nat, b: nat): (r: string)
    requires a <= |s| && b <= |s|
    ensures a <= b ==> r == s[a..b]
    ensures b < a ==> r == ""
  {
    if a <= b then s[a..b] else ""
  }

  /** The characters for which Python's `str.isspace()` holds. */
  predicate IsSpace(c: char)
  {
    c == ' ' || c == '\t' || c == '\n' || c == '\r' || c == '\U{0B}' || c == '\U{0C}'
    || ('\U{1C}' <= c <= '\U{1F}') || c == '\U{85}' || c == '\U{A0}' || c == '\U{1680}'
    || ('\U{2000}' <= c <= '\U{200A}') || c == '\U{2028}' || c == '\U{2029}'
    || c == '\U{202F}' || c == '\U{205F}' || c == '\U{3000}'
  }

  /** Every character of `s` is whitespace (vacuously so for ""). */
  predicate IsBlank(s: string)
  {
    forall i :: 0 <= i < |s| ==> IsSpace(s[i])
  }

  function TrimStart(s: string): (r: string)
    ensures |r| <= |s| && r == s[|s| - |r|..]
    ensures IsBlank(s[..|s| - |r|])
    ensures r == [] || !IsSpace(r[0])
  {
    if s == [] || !IsSpace(s[0]) then s else TrimStart(s[1..])
  }

  function TrimEnd(s: string): (r: string)
    ensures |r| <= |s| && r == s[..|r|]
    ensures IsBlank(s[|r|..])
    ensures r == [] || !IsSpace(r[|r| - 1])
  {
    if s == [] || !IsSpace(s[|s| - 1]) then s else TrimEnd(s[..|s| - 1])
  }

  /** `r` is `s[a..]` cut short, with only whitespace before and after it. */
  predicate Trimmed(s: string, r: string, a: nat)
  {
    a + |r| <= |s| && r == s[a..a + |r|] && IsBlank(s[..a]) && IsBlank(s[a + |r|..])
  }

  /** Python's `s.strip()`: `s` without its leading and trailing whitespace. */
  function Strip(s: string): (r: string)
    ensures |r| <= |s|
    ensures exists a :: Trimmed(s, r, a)
    ensures r == [] <==> IsBlank(s)
    ensures r == [] || (!IsSpace(r[0]) && !IsSpace(r[|r| - 1]))
  {
    StripParts(s);
    TrimEnd(TrimStart(s))
  }

  /** What strip keeps is a middle part of `s` with only whitespace around it,
      and it is empty exactly when `s` is blank. */
  lemma {:induction false} StripParts(s: string)
    ensures Trimmed(s, TrimEnd(TrimStart(s)), |s| - |TrimStart(s)|)
    ensures TrimEnd(TrimStart(s)) == [] <==> IsBlank(s)
  {
    var t := TrimStart(s);
    TrimmedOf(s, t, TrimEnd(t));
  }

  /** Cutting blank text off the front of `s` and then off the back leaves a
      middle part with only whitespace around it, empty exactly when `s` is
      blank. */
  lemma {:induction false} TrimmedOf(s: string, t: string, r: string)
    requires |t| <= |s| && t == s[|s| - |t|..] && IsBlank(s[..|s| - |t|])
    requires t == [] || !IsSpace(t[0])
    requires |r| <= |t| && r == t[..|r|] && IsBlank(t[|r|..])
    ensures Trimmed(s, r, |s| - |t|)
    ensures r == [] <==> IsBlank(s)
  {
    var a := |s| - |t|;
    assert r == s[a..a + |r|];
    assert t[|r|..] == s[a + |r|..];
    FirstKept(t, r);
    TrimmedBlank(s, r, a);
  }

  /** A front part of text that does not begin with whitespace does not
      begin with whitespace either. */
  lemma {:induction false} FirstKept(t: string, r: string)
    requires |r| <= |t| && r == t[..|r|] && (t == [] || !IsSpace(t[0]))
    ensures r == [] || !IsSpace(r[0])
  {
    if r != [] {
      assert r[0] == t[0];
    }
  }

  /** A middle part that does not begin with whitespace is empty exactly when
      all of `s` is whitespace. */
  lemma {:induction false} TrimmedBlank(s: string, r: string, a: nat)
    requires Trimmed(s, r, a) && (r == [] || !IsSpace(r[0]))
    ensures r == [] <==> IsBlank(s)
  {
    if r == [] {
      assert s == s[..a] + s[a..];
      BlankConcat(s[..a], s[a..]);
    } else {
      assert s[a] == r[0];
    }
  }

  lemma {:induction false} BlankConcat(a: string, b: string)
    requires IsBlank(a) && IsBlank(b)
    ensures IsBlank(a + b)
  {
    forall i | 0 <= i < |a + b| ensures IsSpace((a + b)[i]) {
      if i < |a| { assert (a + b)[i] == a[i]; } else { assert (a + b)[i] == b[i - |a|]; }
    }
  }

  /** Lower-casing as far as matching an ASCII phrase can observe it: ASCII
      capitals and the Kelvin sign (which Python lower-cases to 'k') map to
      ASCII lower case; every other character is kept as it is. */
  function LowerChar(c: char): (r: char)
    ensures 'A' <= c <= 'Z' ==> r as int == c as int + 32
    ensures !('A' <= c <= 'Z') && c != '\U{212A}' ==> r == c
  {
    if 'A' <= c <= 'Z' then (c as int + 32) as char
    else if c == '\U{212A}' then 'k'
    else c
  }

  /** `s.lower()`, with the caveat of LowerChar. */
  function Lower(s: string): (r: string)
    ensures |r| == |s|
    ensures forall i :: 0 <= i < |s| ==> r[i] == LowerChar(s[i])
    ensures forall i :: 0 <= i < |r| ==> !('A' <= r[i] <= 'Z')
  {
    seq(|s|, i requires 0 <= i < |s| => LowerChar(s[i]))
  }

  /** Lower-casing twice changes nothing more. */
  lemma {:induction false} LowerTwice(s: string)
    ensures Lower(Lower(s)) == Lower(s)
  {
    var once := Lower(s);
    forall i | 0 <= i < |s|
      ensures Lower(once)[i] == once[i]
    {
      assert !('A' <= once[i] <= 'Z');
      assert once[i] != '\U{212A}';
    }
  }

  /** A whitespace character stays whitespace once lower-cased. */
  lemma {:induction false} LowerKeepsBlank(s: string)
    requires IsBlank(s)
    ensures IsBlank(Lower(s))
  {
  }

  /** Blank text holds no pattern that starts with a non-space character. */
  lemma {:induction false} BlankContainsNone(s: string, p: string)
    requires IsBlank(s) && p != [] && !IsSpace(p[0])
    ensures !Contains(s, p)
  {
    ContainsOccurs(s, p);
  }

  /** Python's `s.split(sep)` for a one-character separator. */
  function Split(s: string, sep: char): (r: seq<string>)
    ensures |r| >= 1
    ensures forall k :: 0 <= k < |r| ==> sep !in r[k]
    ensures |r| <= |s| + 1
  {
    if s == [] then [""]
    else
      var rest := Split(s[1..], sep);
      if s[0] == sep then [""] + rest
      else [[s[0]] + rest[0]] + rest[1..]
  }

  /** Python's `sep.join(parts)`: empty for no parts, and beginning with the
      first part otherwise. */
  function Join(sep: string, parts: seq<string>): (r: string)
    ensures parts == [] ==> r == ""
    ensures parts != [] ==> |parts[0]| <= |r| && r[..|parts[0]|] == parts[0]
  {
    if |parts| == 0 then ""
    else if |parts| == 1 then parts[0]
    else parts[0] + sep + Join(sep, parts[1..])
  }

  /** Joining one more part adds the separator and the part at the end. */
  lemma {:induction false} JoinSnoc(sep: string, parts: seq<string>, x: string)
    requires parts != []
    ensures Join(sep, parts + [x]) == Join(sep, parts) + sep + x
  {
    if |parts| == 1 {
      assert parts + [x] == [parts[0], x];
      assert Join(sep, [x]) == x;
    } else {
      JoinSnoc(sep, parts[1..], x);
      assert (parts + [x])[1..] == parts[1..] + [x];
      AppendAssoc(parts[0] + sep, Join(sep, parts[1..]), sep + x);
      AppendAssoc(parts[0] + sep + Join(sep, parts[1..]), sep, x);
      AppendAssoc(Join(sep, parts[1..]), sep, x);
    }
  }

  /** Joining two non-empty lists of parts in one go puts the separator
      between their joins. */
  lemma {:induction false} JoinConcat(sep: string, a: seq<string>, b: seq<string>)
    requires a != [] && b != []
    ensures Join(sep, a + b) == Join(sep, a) + sep + Join(sep, b)
  {
    assert (a + b)[0] == a[0] && (a + b)[1..] == a[1..] + b;
    if |a| > 1 {
      JoinConcat(sep, a[1..], b);
      AppendAssoc(a[0] + sep, Join(sep, a[1..]) + sep, Join(sep, b));
      AppendAssoc(a[0] + sep, Join(sep, a[1..]), sep);
    }
  }

  /** A join holds no character that neither the separator nor any part holds. */
  lemma {:induction false} JoinFree(sep: string, parts: seq<string>, c: char)
    requires c !in sep
    requires forall k :: 0 <= k < |parts| ==> c !in parts[k]
    ensures c !in Join(sep, parts)
  {
    if |parts| > 1 {
      JoinFree(sep, parts[1..], c);
    }
  }

  /** Joining the pieces of a split on the same separator gives back the text. */
  lemma {:induction false} JoinSplit(s: string, sep: char)
    ensures Join([sep], Split(s, sep)) == s
  {
    if s != [] {
      var rest := Split(s[1..], sep);
      JoinSplit(s[1..], sep);
      if s[0] == sep {
        assert Split(s, sep) == [""] + rest;
        assert ([""] + rest)[1..] == rest;
      } else {
        var parts := [[s[0]] + rest[0]] + rest[1..];
        assert Split(s, sep) == parts;
        if |rest| == 1 {
          assert Join([sep], rest) == rest[0];
        } else {
          assert parts[1..] == rest[1..];
          assert Join([sep], rest) == rest[0] + [sep] + Join([sep], rest[1..]);
        }
      }
    }
  }

  /** Splitting text that has no separator in front of a separator. */
  lemma {:induction false} SplitAfter(a: string, sep: char, b: string)
    requires sep !in a
    ensures Split(a + [sep] + b, sep) == [a] + Split(b, sep)
  {
    if a == [] {
      assert a + [sep] + b == [sep] + b;
      assert ([sep] + b)[1..] == b;
    } else {
      SplitAfter(a[1..], sep, b);
      assert (a + [sep] + b)[1..] == a[1..] + [sep] + b;
      assert [a[0]] + a[1..] == a;
    }
  }

  /** Splitting text that has no separator at all. */
  lemma {:induction false} SplitNone(a: string, sep: char)
    requires sep !in a
    ensures Split(a, sep) == [a]
  {
    if a != [] {
      SplitNone(a[1..], sep);
      assert [a[0]] + a[1..] == a;
    }
  }

  /** Splitting a join on the same separator gives back the parts, provided no
      part contains the separator. */
  lemma {:induction false} SplitJoin(parts: seq<string>, sep: char)
    requires |parts| >= 1
    requires forall k :: 0 <= k < |parts| ==> sep !in parts[k]
    ensures Split(Join([sep], parts), sep) == parts
  {
    if |parts| == 1 {
      SplitNone(parts[0], sep);
    } else {
      SplitJoin(parts[1..], sep);
      SplitAfter(parts[0], sep, Join([sep], parts[1..]));
      assert [parts[0]] + parts[1..] == parts;
    }
  }

  /** The concatenation of a sequence of strings (Python's `"".join(parts)`). */
  function Concat(parts: seq<string>): string
  {
    if parts == [] then "" else parts[0] + Concat(parts[1..])
  }

  lemma {:induction false} ConcatAppend(a: seq<string>, b: seq<string>)
    ensures Concat(a + b) == Concat(a) + Concat(b)
  {
    if a != [] {
      ConcatAppend(a[1..], b);
      assert (a + b)[1..] == a[1..] + b;
    } else {
      assert a + b == b;
    }
  }

  /** Regrouping a concatenation of three sequences. */
  lemma {:induction false} AppendAssoc<T>(a: seq<T>, b: seq<T>, c: seq<T>)
    ensures a + (b + c) == (a + b) + c
  {
  }

  /** A slice that ends inside `x` does not see what is appended to `x`. */
  lemma {:induction false} SliceAppend(x: string, y: string, a: nat, b: nat)
    requires a <= b <= |x|
    ensures (x + y)[a..b] == x[a..b]
  {
  }

  /** Dropping a prefix of `x` from `x + y` keeps `y` whole. */
  lemma {:induction false} DropAppend(x: string, y: string, a: nat)
    requires a <= |x|
    ensures (x + y)[a..] == x[a..] + y
  {
  }
}
