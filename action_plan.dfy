/**
 * The generate_action_plan pipeline wrapper: the loop that forwards the
 * model's text deltas, the filter that takes JSON-format instructions out of
 * the prompt before it is sent for a streamed (markdown) answer, and the two
 * module-level helpers `get_resources` and `format_resources`.
 */
module ActionPlan {
  import opened Wrappers
  import opened Strings
  import opened Events
  import opened Referrals

  // ---- Forwarding the stream ----

  /** The streaming loop: yields each non-empty text delta as it arrives and
      stops at `response.done`. */
  method ForwardDeltas(stream: seq<Event>) returns (out: seq<string>)
    ensures out == Deltas(UntilDone(stream))
  {
    out := [];
    var i := 0;
    while i < |stream|
      invariant 0 <= i <= |stream|
      invariant forall k :: 0 <= k < i ==> !stream[k].Done?
      invariant out == Deltas(stream[..i])
    {
      var event := stream[i];
      if event.Done? {
        UntilDoneAt(stream, i);
        return;
      }
      assert stream[..i + 1] == stream[..i] + [event];
      DeltasAppend(stream[..i], [event]);
      DeltaOfOne(event);
      if event.Delta? && event.text != "" {
        out := out + [event.text];
      }
      i := i + 1;
    }
    assert stream[..i] == stream;
    UntilDoneAll(stream);
  }

  /** What one event contributes: its text when it is a non-empty delta. With
      DeltasAppend this fixes Deltas on every stream. */
  lemma {:induction false} DeltaOfOne(e: Event)
    ensures Deltas([e]) == if e.Delta? && e.text != "" then [e.text] else []
  {
    assert [e][1..] == [];
  }

  /** Nothing after the first `response.done` is forwarded. */
  lemma {:induction false} DoneEndsForwarding(a: seq<Event>, b: seq<Event>)
    requires forall k :: 0 <= k < |a| ==> !a[k].Done?
    ensures Deltas(UntilDone(a + [Done] + b)) == Deltas(a)
  {
    UntilDoneAt(a + [Done] + b, |a|);
    assert (a + [Done] + b)[..|a|] == a;
  }

  /** An event of another type, or a delta event without text, before
      `response.done` is forwarded as nothing. */
  lemma {:induction false} SilentEventSkipped(a: seq<Event>, e: Event, b: seq<Event>)
    requires forall k :: 0 <= k < |a| ==> !a[k].Done?
    requires e.Other? || e == Delta("")
    ensures Deltas(UntilDone(a + [e] + b)) == Deltas(UntilDone(a + b))
  {
    assert a + [e] + b == a + ([e] + b);
    UntilDoneAppend(a, [e] + b);
    UntilDoneAppend(a, b);
    assert ([e] + b)[0] == e && ([e] + b)[1..] == b;
    assert UntilDone([e] + b) == [e] + UntilDone(b);
    DeltasAppend(a, [e] + UntilDone(b));
    DeltasAppend(a, UntilDone(b));
    DeltasAppend([e], UntilDone(b));
    DeltaOfOne(e);
  }

  // ---- Taking JSON instructions out of the prompt ----

  /** A line that asks for JSON output contains one of these phrases once
      lower-cased. */
  const TRIGGER_PHRASES: seq<string> := [
    "must be a valid json",
    "response must be a json",
    "return json",
    "json object",
    "don't repeat the schema",
    "json structure",
    "`title`, `summary`, and `content` keys"
  ]

  /** The shortest phrase has 11 characters, so no shorter line is a
      trigger. */
  predicate IsTrigger(line: string): (b: bool)
    ensures b ==> 11 <= |line|
  {
    exists phrase :: phrase in TRIGGER_PHRASES && Contains(Lower(line), phrase)
  }

  /** The test ignores case: a line and its lower-cased form are triggers
      alike. */
  lemma {:induction false} TriggerIgnoresCase(line: string)
    ensures IsTrigger(Lower(line)) <==> IsTrigger(line)
  {
    LowerTwice(line);
  }

  /** The lines the filter keeps from `lines` when it starts in the state
      `skipping`: a trigger line is dropped and starts skipping; while
      skipping, a whitespace-only line is dropped and ends it; any other line
      is kept exactly when not skipping. The trigger test is a parameter; the
      prompt filter uses IsTrigger. */
  function Filtered(lines: seq<string>, skipping: bool, isTrigger: string -> bool): (r: seq<string>)
    ensures |r| <= |lines|
    ensures forall k :: 0 <= k < |r| ==> !isTrigger(r[k])
  {
    if lines == [] then []
    else if isTrigger(lines[0]) then Filtered(lines[1..], true, isTrigger)
    else if skipping && Strip(lines[0]) == "" then Filtered(lines[1..], false, isTrigger)
    else if !skipping then [lines[0]] + Filtered(lines[1..], false, isTrigger)
    else Filtered(lines[1..], true, isTrigger)
  }

  /** Whether the filter is skipping once it has read `lines`. */
  function SkippingAfter(lines: seq<string>, skipping: bool, isTrigger: string -> bool): (r: bool)
    ensures lines != [] && isTrigger(lines[|lines| - 1]) ==> r
    ensures lines != [] && Strip(lines[|lines| - 1]) == "" && !isTrigger(lines[|lines| - 1]) ==> !r
    ensures !skipping && (forall k :: 0 <= k < |lines| ==> !isTrigger(lines[k])) ==> !r
  {
    if lines == [] then skipping
    else if isTrigger(lines[0]) then SkippingAfter(lines[1..], true, isTrigger)
    else if skipping && Strip(lines[0]) == "" then SkippingAfter(lines[1..], false, isTrigger)
    else SkippingAfter(lines[1..], skipping, isTrigger)
  }

  /** The loop over the lines of one prompt message. */
  method FilterJsonInstructions(msgText: string) returns (r: string)
    ensures r == Join("\n", Filtered(Split(msgText, '\n'), false, IsTrigger))
  {
    var lines := Split(msgText, '\n');
    var filteredLines: seq<string> := [];
    var skipJsonSection := false;
    var i := 0;
    assert lines[0..] == lines;
    while i < |lines|
      invariant 0 <= i <= |lines|
      invariant filteredLines + Filtered(lines[i..], skipJsonSection, IsTrigger) == Filtered(lines, false, IsTrigger)
    {
      var line := lines[i];
      assert lines[i..][0] == line && lines[i..][1..] == lines[i + 1..];
      if IsTrigger(line) {
        skipJsonSection := true;
      } else if skipJsonSection && Strip(line) == "" {
        skipJsonSection := false;
      } else if !skipJsonSection {
        AppendAssoc(filteredLines, [line], Filtered(lines[i + 1..], false, IsTrigger));
        filteredLines := filteredLines + [line];
      }
      i := i + 1;
    }
    assert filteredLines + [] == filteredLines;
    r := Join("\n", filteredLines);
  }

  /** `a` is `b` with some elements left out, the rest in their order. */
  predicate IsSubsequence<T(==)>(a: seq<T>, b: seq<T>)
    decreases |b|
  {
    a == [] || (b != [] && (IsSubsequence(a, b[1..]) || (a[0] == b[0] && IsSubsequence(a[1..], b[1..]))))
  }

  /** The filter only drops lines: what it keeps is a subsequence of its
      input, in the input's order. */
  lemma {:induction false} FilteredKeeps(lines: seq<string>, skipping: bool, isTrigger: string -> bool)
    ensures IsSubsequence(Filtered(lines, skipping, isTrigger), lines)
  {
    if lines != [] {
      FilteredKeeps(lines[1..], true, isTrigger);
      FilteredKeeps(lines[1..], false, isTrigger);
    }
  }

  /** A whitespace-only line holds none of the trigger phrases, so it never
      starts skipping. */
  lemma {:induction false} BlankIsNotTrigger(line: string)
    requires Strip(line) == ""
    ensures !IsTrigger(line)
  {
    assert IsBlank(Lower(line)) by {
      LowerKeepsBlank(line);
    }
    NoPhraseInBlank(Lower(line));
  }

  /** Every trigger phrase starts with a letter or a backquote, so blank text
      holds none of them. */
  lemma {:induction false} NoPhraseInBlank(s: string)
    requires IsBlank(s)
    ensures forall phrase :: phrase in TRIGGER_PHRASES ==> !Contains(s, phrase)
  {
    forall phrase | phrase in TRIGGER_PHRASES
      ensures !Contains(s, phrase)
    {
      assert phrase[0] in "mrjd`";
      BlankContainsNone(s, phrase);
    }
  }

  /** Filtering a concatenation filters the second part from the state the
      first part leaves. */
  lemma {:induction false} FilteredAppend(a: seq<string>, b: seq<string>, skipping: bool, isTrigger: string -> bool)
    ensures Filtered(a + b, skipping, isTrigger)
      == Filtered(a, skipping, isTrigger) + Filtered(b, SkippingAfter(a, skipping, isTrigger), isTrigger)
    decreases |a|
  {
    if a == [] {
      assert a + b == b;
    } else {
      assert (a + b)[0] == a[0] && (a + b)[1..] == a[1..] + b;
      FilteredAppend(a[1..], b, true, isTrigger);
      FilteredAppend(a[1..], b, false, isTrigger);
      if !isTrigger(a[0]) && !skipping {
        AppendAssoc([a[0]], Filtered(a[1..], false, isTrigger),
                    Filtered(b, SkippingAfter(a[1..], false, isTrigger), isTrigger));
      }
    }
  }

  /** While skipping, a line that is not whitespace-only is dropped and
      skipping goes on. */
  lemma {:induction false} SkipLine(lines: seq<string>, isTrigger: string -> bool)
    requires lines != [] && Strip(lines[0]) != ""
    ensures Filtered(lines, true, isTrigger) == Filtered(lines[1..], true, isTrigger)
  {
  }

  /** While skipping, a whitespace-only line that is no trigger is dropped and
      ends the skipping. */
  lemma {:induction false} EndSkip(lines: seq<string>, isTrigger: string -> bool)
    requires lines != [] && Strip(lines[0]) == "" && !isTrigger(lines[0])
    ensures Filtered(lines, true, isTrigger) == Filtered(lines[1..], false, isTrigger)
  {
  }

  /** While skipping from line `from` on, every line up to and including the
      first whitespace-only one (at `j`) is dropped, and filtering goes on
      after it as if from the start. */
  lemma {:induction false} SkipThroughBlank(lines: seq<string>, from: nat, j: nat, isTrigger: string -> bool)
    requires from <= j < |lines| && Strip(lines[j]) == "" && !isTrigger(lines[j])
    requires forall k :: from <= k < j ==> Strip(lines[k]) != ""
    ensures Filtered(lines[from..], true, isTrigger) == Filtered(lines[j + 1..], false, isTrigger)
    decreases j - from
  {
    var xs := lines[from..];
    var next := lines[from + 1..];
    if from < j {
      assert Filtered(xs, true, isTrigger) == Filtered(next, true, isTrigger) by {
        assert xs != [] && xs[0] == lines[from] && xs[1..] == next;
        SkipLine(xs, isTrigger);
      }
      SkipThroughBlank(lines, from + 1, j, isTrigger);
    } else {
      assert Filtered(xs, true, isTrigger) == Filtered(next, false, isTrigger) by {
        assert xs != [] && xs[0] == lines[from] && xs[1..] == next;
        EndSkip(xs, isTrigger);
      }
    }
  }

  /** While skipping from line `from` on with no whitespace-only line ahead,
      every line is dropped. */
  lemma {:induction false} SkipToEnd(lines: seq<string>, from: nat, isTrigger: string -> bool)
    requires from <= |lines|
    requires forall k :: from <= k < |lines| ==> Strip(lines[k]) != ""
    ensures Filtered(lines[from..], true, isTrigger) == []
    decreases |lines| - from
  {
    if from < |lines| {
      var xs := lines[from..];
      assert Filtered(xs, true, isTrigger) == Filtered(lines[from + 1..], true, isTrigger) by {
        assert xs != [] && xs[0] == lines[from] && xs[1..] == lines[from + 1..];
        SkipLine(xs, isTrigger);
      }
      SkipToEnd(lines, from + 1, isTrigger);
    }
  }

  /** At a trigger line the filter starts skipping, whatever came before. */
  lemma {:induction false} FromTrigger(lines: seq<string>, i: nat, isTrigger: string -> bool)
    requires i < |lines| && isTrigger(lines[i])
    ensures Filtered(lines, false, isTrigger)
      == Filtered(lines[..i], false, isTrigger) + Filtered(lines[i + 1..], true, isTrigger)
  {
    assert lines == lines[..i] + lines[i..];
    FilteredAppend(lines[..i], lines[i..], false, isTrigger);
    assert lines[i..][0] == lines[i] && lines[i..][1..] == lines[i + 1..];
  }

  /** A trigger line and the lines after it through the next whitespace-only
      line (which is no trigger itself) are dropped; the lines before are
      filtered as they were, and the lines after as if the filter had just
      started. For the prompt filter, BlankIsNotTrigger discharges the
      second requirement. */
  lemma {:induction false} TriggerBlockDropped(lines: seq<string>, i: nat, j: nat, isTrigger: string -> bool)
    requires i < j < |lines| && isTrigger(lines[i])
    requires Strip(lines[j]) == "" && !isTrigger(lines[j])
    requires forall k :: i < k < j ==> Strip(lines[k]) != ""
    ensures Filtered(lines, false, isTrigger)
      == Filtered(lines[..i], false, isTrigger) + Filtered(lines[j + 1..], false, isTrigger)
  {
    FromTrigger(lines, i, isTrigger);
    SkipThroughBlank(lines, i + 1, j, isTrigger);
  }

  /** A trigger line with no whitespace-only line after it drops every line
      to the end. */
  lemma {:induction false} TriggerToEnd(lines: seq<string>, i: nat, isTrigger: string -> bool)
    requires i < |lines| && isTrigger(lines[i])
    requires forall k :: i < k < |lines| ==> Strip(lines[k]) != ""
    ensures Filtered(lines, false, isTrigger) == Filtered(lines[..i], false, isTrigger)
  {
    FromTrigger(lines, i, isTrigger);
    SkipToEnd(lines, i + 1, isTrigger);
    assert Filtered(lines[..i], false, isTrigger) + [] == Filtered(lines[..i], false, isTrigger);
  }

  /** Without trigger lines the filter keeps every line. */
  lemma {:induction false} NoTriggerKeepsAll(lines: seq<string>, isTrigger: string -> bool)
    requires forall k :: 0 <= k < |lines| ==> !isTrigger(lines[k])
    ensures Filtered(lines, false, isTrigger) == lines
  {
    if lines != [] {
      NoTriggerKeepsAll(lines[1..], isTrigger);
    }
  }

  /** A message with no trigger line goes through the filter unchanged. */
  lemma {:induction false} NoTriggerUnchanged(msgText: string)
    requires forall k :: 0 <= k < |Split(msgText, '\n')| ==> !IsTrigger(Split(msgText, '\n')[k])
    ensures Join("\n", Filtered(Split(msgText, '\n'), false, IsTrigger)) == msgText
  {
    NoTriggerKeepsAll(Split(msgText, '\n'), IsTrigger);
    JoinSplit(msgText, '\n');
  }

  // ---- Rendering resources for the prompt ----

  /** `[line]` when `present`, nothing otherwise. */
  function IfPresent(present: bool, line: string): seq<string>
  {
    if present then [line] else []
  }

  /** A line and its newline when it is present, nothing otherwise. */
  function LineIfPresent(present: bool, line: string): string
  {
    if present then line + "\n" else ""
  }

  /** One field's labelled line, and whether the resource sets that field. */
  datatype FieldLine = FieldLine(present: bool, line: string)

  /** The website, or "" when there is none. */
  function Website(r: Resource): string
  {
    if r.website.Some? then r.website.value else ""
  }

  /** The labelled lines a block may carry, in their order. A string field is
      set when it is not empty, a list field when it has an element (its
      elements are joined with ", "), the website when it is present and not
      empty. */
  function FieldLines(r: Resource): seq<FieldLine>
  {
    [FieldLine(r.description != "", "- Description: " + r.description)]
    + [FieldLine(r.justification != "", "- Justification: " + r.justification)]
    + [FieldLine(r.addresses != [], "- Addresses: " + Join(", ", r.addresses))]
    + [FieldLine(r.phones != [], "- Phones: " + Join(", ", r.phones))]
    + [FieldLine(r.emails != [], "- Emails: " + Join(", ", r.emails))]
    + [FieldLine(Website(r) != "", "- Website: " + Website(r))]
  }

  /** The lines of the fields that are set, in order. */
  function PresentLines(fs: seq<FieldLine>): seq<string>
  {
    if fs == [] then []
    else PresentLines(fs[..|fs| - 1]) + IfPresent(fs[|fs| - 1].present, fs[|fs| - 1].line)
  }

  /** The lines of one resource's block, without their newlines: the name
      line, then the line of each field that is set. */
  function BlockLines(r: Resource): seq<string>
  {
    ["Name: " + r.name] + PresentLines(FieldLines(r))
  }

  /** Each of `lines` followed by a newline. */
  function Terminated(lines: seq<string>): string
  {
    if lines == [] then "" else lines[0] + "\n" + Terminated(lines[1..])
  }

  /** The text of one resource's block. */
  function Block(r: Resource): string
  {
    Terminated(BlockLines(r))
  }

  /** The blocks of `resources`, in order. */
  function Blocks(resources: seq<Resource>): seq<string>
  {
    seq(|resources|, k requires 0 <= k < |resources| => Block(resources[k]))
  }

  /** The text the field lines add to a block, built the way
      `format_resources` builds it: one `+=` per field that is set. */
  function Appended(fs: seq<FieldLine>): string
  {
    if fs == [] then ""
    else Appended(fs[..|fs| - 1]) + LineIfPresent(fs[|fs| - 1].present, fs[|fs| - 1].line)
  }

  /** Appending a line to a block's lines appends the line and its newline
      to the block's text. */
  lemma {:induction false} AddOneLine(lines: seq<string>, line: string)
    ensures Terminated(lines + [line]) == Terminated(lines) + (line + "\n")
  {
    if lines == [] {
      assert lines + [line] == [line];
      assert [line][1..] == [];
      assert Terminated([line]) == line + "\n" + "";
    } else {
      var rest := lines[1..];
      AddOneLine(rest, line);
      assert (lines + [line])[0] == lines[0];
      assert (lines + [line])[1..] == rest + [line];
      assert Terminated(lines + [line]) == lines[0] + "\n" + Terminated(rest + [line]);
      AppendAssoc(lines[0] + "\n", Terminated(rest), line + "\n");
    }
  }

  /** Appending a line to a block's lines, when it is present, appends the
      line and its newline to the block's text. */
  lemma {:induction false} AddLine(lines: seq<string>, present: bool, line: string)
    ensures Terminated(lines + IfPresent(present, line)) == Terminated(lines) + LineIfPresent(present, line)
  {
    if present {
      AddOneLine(lines, line);
    } else {
      assert lines + [] == lines;
      assert Terminated(lines) + "" == Terminated(lines);
    }
  }

  /** The text of some lines followed by the lines of the fields that are
      set is the text of the first lines with each set field's line appended. */
  lemma {:induction false} AppendedLines(head: seq<string>, fs: seq<FieldLine>)
    ensures Terminated(head + PresentLines(fs)) == Terminated(head) + Appended(fs)
    decreases |fs|
  {
    if fs == [] {
      assert head + [] == head;
      assert Terminated(head) + "" == Terminated(head);
    } else {
      var init, last := fs[..|fs| - 1], fs[|fs| - 1];
      AppendedLines(head, init);
      AddLine(head + PresentLines(init), last.present, last.line);
      AppendAssoc(head, PresentLines(init), IfPresent(last.present, last.line));
      AppendAssoc(Terminated(head), Appended(init), LineIfPresent(last.present, last.line));
    }
  }

  /** A block is its name line followed by what the set fields append. */
  lemma {:induction false} BlockText(r: Resource)
    ensures Block(r) == "Name: " + r.name + "\n" + Appended(FieldLines(r))
  {
    var head := ["Name: " + r.name];
    AppendedLines(head, FieldLines(r));
    assert head[1..] == [];
    assert Terminated(head) == "Name: " + r.name + "\n" + "";
    assert "Name: " + r.name + "\n" + "" == "Name: " + r.name + "\n";
  }

  /** One `+=` step of `format_resources`: the text built for some fields,
      extended by the next field's line when it is set, is the text built
      for those fields and the next. */
  lemma {:induction false} AppendStep(head: string, fs: seq<FieldLine>, f: FieldLine, s: string)
    requires s == head + Appended(fs)
    ensures s + LineIfPresent(f.present, f.line) == head + Appended(fs + [f])
  {
    assert (fs + [f])[..|fs|] == fs;
    AppendAssoc(head, Appended(fs), LineIfPresent(f.present, f.line));
  }

  /** `resource_str += line + "\n"` under the test of whether the field is
      set. */
  method AppendIfSet(s: string, present: bool, line: string) returns (t: string)
    ensures t == s + LineIfPresent(present, line)
  {
    t := s;
    if present {
      t := t + (line + "\n");
    } else {
      assert s + "" == s;
    }
  }

  /** Six fields' appends, one at a time, build what Appended builds for
      the six of them. */
  lemma {:induction false} AppendedSix(head: string, f1: FieldLine, f2: FieldLine, f3: FieldLine,
                    f4: FieldLine, f5: FieldLine, f6: FieldLine)
    ensures head + Appended([f1] + [f2] + [f3] + [f4] + [f5] + [f6])
      == head + LineIfPresent(f1.present, f1.line) + LineIfPresent(f2.present, f2.line)
      + LineIfPresent(f3.present, f3.line) + LineIfPresent(f4.present, f4.line)
      + LineIfPresent(f5.present, f5.line) + LineIfPresent(f6.present, f6.line)
  {
    var s := head;
    assert s == head + Appended([]) by {
      assert head + "" == head;
    }
    AppendStep(head, [], f1, s);
    assert [] + [f1] == [f1];
    s := s + LineIfPresent(f1.present, f1.line);
    AppendStep(head, [f1], f2, s);
    s := s + LineIfPresent(f2.present, f2.line);
    AppendStep(head, [f1] + [f2], f3, s);
    s := s + LineIfPresent(f3.present, f3.line);
    AppendStep(head, [f1] + [f2] + [f3], f4, s);
    s := s + LineIfPresent(f4.present, f4.line);
    AppendStep(head, [f1] + [f2] + [f3] + [f4], f5, s);
    s := s + LineIfPresent(f5.present, f5.line);
    AppendStep(head, [f1] + [f2] + [f3] + [f4] + [f5], f6, s);
  }

  /** A block written out the way `format_resources` builds it: the name
      line, then one append per field, of the field's line when the field is
      set. */
  lemma {:induction false} BuiltBlock(r: Resource)
    ensures Block(r)
      == "Name: " + r.name + "\n"
      + LineIfPresent(r.description != "", "- Description: " + r.description)
      + LineIfPresent(r.justification != "", "- Justification: " + r.justification)
      + LineIfPresent(r.addresses != [], "- Addresses: " + Join(", ", r.addresses))
      + LineIfPresent(r.phones != [], "- Phones: " + Join(", ", r.phones))
      + LineIfPresent(r.emails != [], "- Emails: " + Join(", ", r.emails))
      + LineIfPresent(Website(r) != "", "- Website: " + Website(r))
  {
    BlockText(r);
    AppendedSix("Name: " + r.name + "\n",
      FieldLine(r.description != "", "- Description: " + r.description),
      FieldLine(r.justification != "", "- Justification: " + r.justification),
      FieldLine(r.addresses != [], "- Addresses: " + Join(", ", r.addresses)),
      FieldLine(r.phones != [], "- Phones: " + Join(", ", r.phones)),
      FieldLine(r.emails != [], "- Emails: " + Join(", ", r.emails)),
      FieldLine(Website(r) != "", "- Website: " + Website(r)));
  }

  /** The body of the loop in `format_resources`: the block of one resource,
      built by appending to a string. */
  method FormatBlock(r: Resource) returns (s: string)
    ensures s == Block(r)
  {
    s := "Name: " + r.name + "\n";
    s := AppendIfSet(s, r.description != "", "- Description: " + r.description);
    s := AppendIfSet(s, r.justification != "", "- Justification: " + r.justification);
    s := AppendIfSet(s, r.addresses != [], "- Addresses: " + Join(", ", r.addresses));
    s := AppendIfSet(s, r.phones != [], "- Phones: " + Join(", ", r.phones));
    s := AppendIfSet(s, r.emails != [], "- Emails: " + Join(", ", r.emails));
    s := AppendIfSet(s, r.website.Some? && r.website.value != "", "- Website: " + Website(r));
    BuiltBlock(r);
  }

  /** `format_resources`: the blocks of the resources, in order, separated by
      blank lines (each block already ends in a newline). */
  method FormatResources(resources: seq<Resource>) returns (out: string)
    ensures out == Join("\n", Blocks(resources))
  {
    var formattedResources: seq<string> := [];
    for i := 0 to |resources|
      invariant |formattedResources| == i
      invariant forall k :: 0 <= k < i ==> formattedResources[k] == Block(resources[k])
    {
      var resourceStr := FormatBlock(resources[i]);
      formattedResources := formattedResources + [resourceStr];
    }
    assert formattedResources == Blocks(resources);
    out := Join("\n", formattedResources);
  }

  // ---- What the rendered text says ----

  /** `s` begins with `p`. */
  predicate StartsWith(s: string, p: string)
  {
    |p| <= |s| && s[..|p|] == p
  }

  /** Some line of `lines` begins with `prefix`. */
  predicate HasLine(lines: seq<string>, prefix: string)
  {
    exists line :: line in lines && StartsWith(line, prefix)
  }

  /** The lines of the set fields are exactly the lines of the fields that are
      set. */
  lemma {:induction false} InPresentLines(fs: seq<FieldLine>, line: string)
    ensures line in PresentLines(fs) <==> exists k :: 0 <= k < |fs| && fs[k].present && fs[k].line == line
    decreases |fs|
  {
    if fs != [] {
      var init := fs[..|fs| - 1];
      InPresentLines(init, line);
      if exists k :: 0 <= k < |fs| && fs[k].present && fs[k].line == line {
        var k :| 0 <= k < |fs| && fs[k].present && fs[k].line == line;
        if k < |fs| - 1 {
          assert init[k] == fs[k];
        }
      }
      if exists k :: 0 <= k < |init| && init[k].present && init[k].line == line {
        var k :| 0 <= k < |init| && init[k].present && init[k].line == line;
        assert fs[k] == init[k];
      }
    }
  }

  /** The third character of each field's line names the field: "DJAPEW"
      for Description, Justification, Addresses, Phones, Emails, Website. */
  lemma {:induction false} FieldKeys(r: Resource)
    ensures |FieldLines(r)| == 6
    ensures forall j :: 0 <= j < 6 ==> 3 <= |FieldLines(r)[j].line| && FieldLines(r)[j].line[2] == "DJAPEW"[j]
  {
  }

  /** A block shows the line of field `k` exactly when that field is set: the
      name line and the other fields' lines differ from it in their third
      character. */
  lemma {:induction false} FieldLineShown(r: Resource, k: nat, prefix: string)
    requires k < 6 && 3 <= |prefix| && prefix[2] == "DJAPEW"[k]
    requires forall j :: 0 <= j < 6 ==> 3 <= |FieldLines(r)[j].line| && FieldLines(r)[j].line[2] == "DJAPEW"[j]
    requires |FieldLines(r)| == 6 && StartsWith(FieldLines(r)[k].line, prefix)
    ensures HasLine(BlockLines(r), prefix) <==> FieldLines(r)[k].present
  {
    var fs := FieldLines(r);
    if fs[k].present {
      assert HasLine(BlockLines(r), prefix) by {
        InPresentLines(fs, fs[k].line);
        assert fs[k].line in BlockLines(r) && StartsWith(fs[k].line, prefix);
      }
    }
    if HasLine(BlockLines(r), prefix) {
      var line :| line in BlockLines(r) && StartsWith(line, prefix);
      assert line[2] == "DJAPEW"[k] by {
        assert line[..|prefix|] == prefix;
      }
      assert line != "Name: " + r.name by {
        assert ("Name: " + r.name)[2] == 'm';
      }
      assert fs[k].present by {
        InPresentLines(fs, line);
        var j :| 0 <= j < |fs| && fs[j].present && fs[j].line == line;
        assert "DJAPEW"[j] == "DJAPEW"[k];
      }
    }
  }

  /** A block has a Description, Justification, Addresses, Phones, Emails or
      Website line exactly when that field is set. */
  lemma {:induction false} FieldLinesShown(r: Resource)
    ensures HasLine(BlockLines(r), "- Description: ") <==> r.description != ""
    ensures HasLine(BlockLines(r), "- Justification: ") <==> r.justification != ""
    ensures HasLine(BlockLines(r), "- Addresses: ") <==> r.addresses != []
    ensures HasLine(BlockLines(r), "- Phones: ") <==> r.phones != []
    ensures HasLine(BlockLines(r), "- Emails: ") <==> r.emails != []
    ensures HasLine(BlockLines(r), "- Website: ") <==> r.website.Some? && r.website.value != ""
  {
    FieldKeys(r);
    FieldLineShown(r, 0, "- Description: ");
    FieldLineShown(r, 1, "- Justification: ");
    FieldLineShown(r, 2, "- Addresses: ");
    FieldLineShown(r, 3, "- Phones: ");
    FieldLineShown(r, 4, "- Emails: ");
    FieldLineShown(r, 5, "- Website: ");
  }

  /** Each block begins with its resource's name line. */
  lemma {:induction false} BlockStart(r: Resource)
    ensures StartsWith(Block(r), "Name: " + r.name + "\n")
  {
    BlockText(r);
  }

  /** `format_resources([])` is "", and the text for any other list is not
      empty and begins with the first resource's name line. */
  lemma {:induction false} FormattedStart(resources: seq<Resource>)
    ensures resources == [] ==> Join("\n", Blocks(resources)) == ""
    ensures resources != [] ==> StartsWith(Join("\n", Blocks(resources)), "Name: " + resources[0].name + "\n")
    ensures Join("\n", Blocks(resources)) == "" <==> resources == []
  {
    if resources != [] {
      var text := Join("\n", Blocks(resources));
      BlockStart(resources[0]);
      var head := "Name: " + resources[0].name + "\n";
      assert text[..|head|] == Block(resources[0])[..|head|];
      assert text[0] == head[0];
    }
  }

  /** A list of lines, each followed by a newline, is the join of the lines
      and one empty line. */
  lemma {:induction false} TerminatedJoin(lines: seq<string>)
    ensures Terminated(lines) == Join("\n", lines + [""])
  {
    if lines != [] {
      TerminatedJoin(lines[1..]);
      assert (lines + [""])[0] == lines[0] && (lines + [""])[1..] == lines[1..] + [""];
    }
  }

  /** The lines of the text for `resources`: each block's lines followed by
      an empty line. */
  function LinesOf(resources: seq<Resource>): seq<string>
  {
    if resources == [] then [] else BlockLines(resources[0]) + [""] + LinesOf(resources[1..])
  }

  /** The text for a non-empty list is the join of all its lines. */
  lemma {:induction false} FormattedIsJoinOfLines(resources: seq<Resource>)
    requires resources != []
    ensures Join("\n", Blocks(resources)) == Join("\n", LinesOf(resources))
  {
    var first := BlockLines(resources[0]) + [""];
    TerminatedJoin(BlockLines(resources[0]));
    if |resources| == 1 {
      assert LinesOf(resources) == first + [];
      assert first + [] == first;
    } else {
      FormattedIsJoinOfLines(resources[1..]);
      assert Blocks(resources)[1..] == Blocks(resources[1..]);
      JoinConcat("\n", first, LinesOf(resources[1..]));
    }
  }

  /** None of the resource's texts holds a line break. */
  predicate NoLineBreaks(r: Resource)
  {
    && '\n' !in r.name && '\n' !in r.description && '\n' !in r.justification
    && (forall k :: 0 <= k < |r.addresses| ==> '\n' !in r.addresses[k])
    && (forall k :: 0 <= k < |r.phones| ==> '\n' !in r.phones[k])
    && (forall k :: 0 <= k < |r.emails| ==> '\n' !in r.emails[k])
    && '\n' !in Website(r)
  }

  /** No label holds a line break. */
  lemma {:induction false} LabelsUnbroken()
    ensures '\n' !in "Name: " && '\n' !in "- Description: " && '\n' !in "- Justification: "
    ensures '\n' !in "- Addresses: " && '\n' !in "- Phones: " && '\n' !in "- Emails: "
    ensures '\n' !in "- Website: "
  {
  }

  /** A label followed by a value without line breaks has none. */
  lemma {:induction false} LabelledUnbroken(prefix: string, value: string)
    requires '\n' !in prefix && '\n' !in value
    ensures '\n' !in prefix + value
  {
  }

  /** Then no line of its block holds one either. */
  lemma {:induction false} BlockLinesUnbroken(r: Resource, line: string)
    requires NoLineBreaks(r) && line in BlockLines(r)
    ensures '\n' !in line
  {
    LabelsUnbroken();
    JoinFree(", ", r.addresses, '\n');
    JoinFree(", ", r.phones, '\n');
    JoinFree(", ", r.emails, '\n');
    LabelledUnbroken("Name: ", r.name);
    LabelledUnbroken("- Description: ", r.description);
    LabelledUnbroken("- Justification: ", r.justification);
    LabelledUnbroken("- Addresses: ", Join(", ", r.addresses));
    LabelledUnbroken("- Phones: ", Join(", ", r.phones));
    LabelledUnbroken("- Emails: ", Join(", ", r.emails));
    LabelledUnbroken("- Website: ", Website(r));
    if line != "Name: " + r.name {
      var fs := FieldLines(r);
      InPresentLines(fs, line);
    }
  }

  lemma {:induction false} LinesUnbroken(resources: seq<Resource>, line: string)
    requires forall k :: 0 <= k < |resources| ==> NoLineBreaks(resources[k])
    requires line in LinesOf(resources)
    ensures '\n' !in line
  {
    if resources != [] {
      if line in BlockLines(resources[0]) {
        BlockLinesUnbroken(resources[0], line);
      } else if line != "" {
        LinesUnbroken(resources[1..], line);
      }
    }
  }

  /** When no text of the resources holds a line break, the lines of
      `format_resources`' text are the lines of the first block, an empty line,
      the lines of the second block, an empty line, and so on: one block per
      resource, in order. */
  lemma {:induction false} FormattedLines(resources: seq<Resource>)
    requires resources != []
    requires forall k :: 0 <= k < |resources| ==> NoLineBreaks(resources[k])
    ensures Split(Join("\n", Blocks(resources)), '\n') == LinesOf(resources)
  {
    FormattedIsJoinOfLines(resources);
    var lines := LinesOf(resources);
    forall k | 0 <= k < |lines|
      ensures '\n' !in lines[k]
    {
      LinesUnbroken(resources, lines[k]);
    }
    SplitJoin(lines, '\n');
  }

  // ---- Normalising the resources argument ----

  /** The argument of `get_resources`: a list of Resource values, or a list of
      decoded JSON objects still to be validated as resources. */
  datatype ResourceArg<J> = Models(resources: seq<Resource>) | Dicts(dicts: seq<J>)

  /** `[Resource(**res) for res in dicts]`: every object validated, in order.
      Validation raises at the first object that is not a resource; that is
      `Failure(k)` for its index `k`. */
  function ValidateAll<J>(dicts: seq<J>, toResource: J -> Option<Resource>): (r: Result<seq<Resource>, nat>)
    ensures r.Success? <==> forall k :: 0 <= k < |dicts| ==> toResource(dicts[k]).Some?
    ensures r.Success? ==> |r.value| == |dicts|
    ensures r.Success? ==> forall k :: 0 <= k < |dicts| ==> toResource(dicts[k]) == Some(r.value[k])
    ensures r.Failure? ==> r.error < |dicts| && toResource(dicts[r.error]).None?
    ensures r.Failure? ==> forall k :: 0 <= k < r.error ==> toResource(dicts[k]).Some?
  {
    if dicts == [] then Success([])
    else match toResource(dicts[0])
      case None => Failure(0)
      case Some(first) =>
        match ValidateAll(dicts[1..], toResource)
        case Success(rest) => Success([first] + rest)
        case Failure(k) => Failure(k + 1)
  }

  /** `get_resources`: an empty list gives []; a list of Resource values is
      returned as it is; a list of objects gives one Resource per object, in
      order, or fails at the first object that does not validate. */
  function GetResources<J>(arg: ResourceArg<J>, toResource: J -> Option<Resource>): (r: Result<seq<Resource>, nat>)
    ensures arg.Models? ==> r == Success(arg.resources)
    ensures arg.Dicts? && arg.dicts == [] ==> r == Success([])
    ensures arg.Dicts? ==> (r.Success? <==> forall k :: 0 <= k < |arg.dicts| ==> toResource(arg.dicts[k]).Some?)
    ensures arg.Dicts? && r.Success? ==> |r.value| == |arg.dicts|
    ensures arg.Dicts? && r.Success? ==> forall k :: 0 <= k < |arg.dicts| ==> toResource(arg.dicts[k]) == Some(r.value[k])
    ensures r.Failure? ==> arg.Dicts? && r.error < |arg.dicts| && toResource(arg.dicts[r.error]).None?
  {
    match arg
    case Models(resources) => Success(resources)
    case Dicts(dicts) => if dicts == [] then Success([]) else ValidateAll(dicts, toResource)
  }
}
