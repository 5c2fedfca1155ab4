/**
 * The generate_referrals pipeline wrapper: the `Resource` record, its
 * `ReferralType` enum, and the streaming endpoint that cuts resources out of
 * the model's text by their `---RESOURCE_START---` / `---RESOURCE_END---`
 * markers.
 *
 * JSON decoding (`json.loads`) and pydantic validation (`Resource(**obj)`)
 * are library code; they are parameters here: `loads` gives the decoded
 * object or None when decoding raises, `toResource` the validated Resource or
 * None when validation raises. `J` is the type of decoded JSON objects, and a
 * yielded resource is the decoded object that `json.dumps` serialises.
 */
module Referrals {
  import opened Wrappers
  import opened Strings
  import opened Events

  datatype ReferralType = External | Goodwill | Government
  {
    /** The string value of the enum member. */
    function Value(): string
    {
      match this
      case External => "external"
      case Goodwill => "goodwill"
      case Government => "government"
    }
  }

  /** `ReferralType(s)`: the member whose value is `s`, or None where the enum
      constructor raises. */
  function ParseReferralType(s: string): (r: Option<ReferralType>)
    ensures forall t: ReferralType :: r == Some(t) <==> t.Value() == s
  {
    if s == "external" then Some(External)
    else if s == "goodwill" then Some(Goodwill)
    else if s == "government" then Some(Government)
    else None
  }

  /** A community resource. `website` and `referralType` are the optional
      fields (default None); all others are required. */
  datatype Resource = Resource(
    name: string,
    addresses: seq<string>,
    phones: seq<string>,
    emails: seq<string>,
    website: Option<string>,
    description: string,
    justification: string,
    referralType: Option<ReferralType>)

  const START_MARKER: string := "---RESOURCE_START---"
  const END_MARKER: string := "---RESOURCE_END---"
  const NO_RESOURCES_MESSAGE: string := "No resources were generated. Please try a different query."

  /** One value the endpoint yields: a resource object, or `{"error": message}`. */
  datatype Yield<J> = ResourceJson(obj: J) | ErrorJson(message: string)

  /** The text found between the markers (before stripping), and the buffer
      that is kept. */
  datatype Span = Span(text: string, rest: string)

  /** One pass of the inner `while` loop on `buffer`: None when the loop stops
      (no end marker, or an end marker but no start marker); otherwise the text
      between the first start marker and the first end marker, and the text
      after that end marker. */
  function NextSpan(buffer: string): (r: Option<Span>)
    ensures r.None? <==> !(Contains(buffer, END_MARKER) && Contains(buffer, START_MARKER))
    ensures r.Some? ==> |r.value.rest| + |END_MARKER| <= |buffer|
    ensures r.Some? ==> IsSuffix(r.value.rest, buffer)
  {
    var endIdx := Find(buffer, END_MARKER);
    var startIdx := Find(buffer, START_MARKER);
    if endIdx == -1 || startIdx == -1 then None
    else
      assert IsSuffix(buffer[endIdx + |END_MARKER|..], buffer);
      Some(Span(Slice(buffer, startIdx + |START_MARKER|, endIdx),
                buffer[endIdx + |END_MARKER|..]))
  }

  /** What a span contributes: the object its stripped text decodes to, when
      that object validates as a Resource; nothing otherwise. */
  function Accept<J>(text: string, loads: string -> Option<J>, toResource: J -> Option<Resource>): (r: seq<J>)
    ensures |r| <= 1
    ensures forall obj :: obj in r ==> loads(Strip(text)) == Some(obj) && toResource(obj).Some?
    ensures r == [] <==> loads(Strip(text)).None? || toResource(loads(Strip(text)).value).None?
  {
    var parsed := loads(Strip(text));
    if parsed.Some? && toResource(parsed.value).Some? then [parsed.value] else []
  }

  /** The inner `while` loop run to its end on `buffer`: the buffer it leaves
      and the resources it yields, in the order their spans closed. */
  function Drain<J>(buffer: string, loads: string -> Option<J>, toResource: J -> Option<Resource>)
    : (r: (string, seq<J>))
    ensures !(Contains(r.0, END_MARKER) && Contains(r.0, START_MARKER))
    ensures IsSuffix(r.0, buffer)
    decreases |buffer|
  {
    match NextSpan(buffer)
    case None => (buffer, [])
    case Some(span) =>
      var d := Drain(span.rest, loads, toResource);
      SuffixOfSuffix(buffer, span.rest, d.0);
      (d.0, Accept(span.text, loads, toResource) + d.1)
  }

  /** Every resource Drain yields validates, and each one used up at least
      the 18 characters of its END_MARKER. */
  lemma {:induction false} DrainYields<J>(buffer: string, loads: string -> Option<J>, toResource: J -> Option<Resource>)
    ensures var d := Drain(buffer, loads, toResource);
      && (forall obj :: obj in d.1 ==> toResource(obj).Some?)
      && 18 * |d.1| <= |buffer| - |d.0|
    decreases |buffer|
  {
    match NextSpan(buffer)
    case None =>
    case Some(span) =>
      DrainYields(span.rest, loads, toResource);
  }

  /** A buffer without a start marker is left as it is, even when it holds an
      end marker. */
  lemma {:induction false} DrainWithoutStart<J>(buffer: string, loads: string -> Option<J>, toResource: J -> Option<Resource>)
    requires !Contains(buffer, START_MARKER)
    ensures Drain(buffer, loads, toResource) == (buffer, [])
  {
  }

  lemma {:induction false} SuffixOfSuffix(a: string, b: string, c: string)
    requires IsSuffix(b, a) && IsSuffix(c, b)
    ensures IsSuffix(c, a)
  {
  }

  /** The `for event in stream` loop from `buffer`: the buffer it leaves and
      the resources it yields. Every resource validates, and a buffer the
      inner loop has settled stays settled. */
  function Consume<J>(events: seq<Event>, buffer: string, loads: string -> Option<J>, toResource: J -> Option<Resource>)
    : (r: (string, seq<J>))
    ensures forall obj :: obj in r.1 ==> toResource(obj).Some?
    ensures NextSpan(buffer).None? ==> NextSpan(r.0).None?
  {
    if events == [] then (buffer, [])
    else
      match events[0]
      case Done => (buffer, [])
      case Other => Consume(events[1..], buffer, loads, toResource)
      case Delta(text) =>
        if text == "" then Consume(events[1..], buffer, loads, toResource)
        else
          DrainYields(buffer + text, loads, toResource);
          var (b, found) := Drain(buffer + text, loads, toResource);
          var (left, more) := Consume(events[1..], b, loads, toResource);
          (left, found + more)
  }

  /** The resources the endpoint yields for `events`: each one validates. */
  function Emitted<J>(events: seq<Event>, loads: string -> Option<J>, toResource: J -> Option<Resource>): (r: seq<J>)
    ensures forall obj :: obj in r ==> toResource(obj).Some?
  {
    Consume(events, "", loads, toResource).1
  }

  function AsYields<J>(found: seq<J>): (r: seq<Yield<J>>)
  {
    seq(|found|, k requires 0 <= k < |found| => ResourceJson(found[k]))
  }

  /** Everything the endpoint yields: the resources, then the error object
      exactly when there were none. */
  function Outputs<J>(events: seq<Event>, loads: string -> Option<J>, toResource: J -> Option<Resource>)
    : (r: seq<Yield<J>>)
    ensures |r| >= 1
    ensures forall k :: 0 <= k < |r| - 1 ==> r[k].ResourceJson?
    ensures r[|r| - 1].ErrorJson? <==> Emitted(events, loads, toResource) == []
    ensures r[|r| - 1].ErrorJson? ==> r == [ErrorJson(NO_RESOURCES_MESSAGE)]
    ensures |r| == |Emitted(events, loads, toResource)| + (if Emitted(events, loads, toResource) == [] then 1 else 0)
    ensures forall k :: 0 <= k < |Emitted(events, loads, toResource)| ==> r[k] == ResourceJson(Emitted(events, loads, toResource)[k])
  {
    var found := Emitted(events, loads, toResource);
    AsYields(found) + (if found == [] then [ErrorJson(NO_RESOURCES_MESSAGE)] else [])
  }

  lemma {:induction false} ConsumeDelta<J>(events: seq<Event>, buffer: string, loads: string -> Option<J>, toResource: J -> Option<Resource>)
    requires events != [] && events[0].Delta? && events[0].text != ""
    ensures var d := Drain(buffer + events[0].text, loads, toResource);
      Consume(events, buffer, loads, toResource).1 == d.1 + Consume(events[1..], d.0, loads, toResource).1
  {
  }

  lemma {:induction false} ConsumeSkip<J>(events: seq<Event>, buffer: string, loads: string -> Option<J>, toResource: J -> Option<Resource>)
    requires events != [] && (events[0].Other? || events[0] == Delta(""))
    ensures Consume(events, buffer, loads, toResource) == Consume(events[1..], buffer, loads, toResource)
  {
  }

  lemma {:induction false} NextSpanFound(buffer: string)
    requires Find(buffer, START_MARKER) != -1 && Find(buffer, END_MARKER) != -1
    ensures var startIdx, endIdx := Find(buffer, START_MARKER), Find(buffer, END_MARKER);
      startIdx + |START_MARKER| <= |buffer| && endIdx + |END_MARKER| <= |buffer|
      && NextSpan(buffer) == Some(Span(Slice(buffer, startIdx + |START_MARKER|, endIdx),
                                       buffer[endIdx + |END_MARKER|..]))
  {
  }

  /** One span of Drain: the span's contribution, then the rest drained. */
  lemma {:induction false} DrainStep<J>(buffer: string, loads: string -> Option<J>, toResource: J -> Option<Resource>)
    requires NextSpan(buffer).Some?
    ensures var span := NextSpan(buffer).value;
      var d := Drain(span.rest, loads, toResource);
      Drain(buffer, loads, toResource) == (d.0, Accept(span.text, loads, toResource) + d.1)
  {
  }

  lemma {:induction false} DrainSettled<J>(buffer: string, loads: string -> Option<J>, toResource: J -> Option<Resource>)
    requires !(Contains(buffer, END_MARKER) && Contains(buffer, START_MARKER))
    ensures Drain(buffer, loads, toResource) == (buffer, [])
  {
  }

  lemma {:induction false} AsYieldsConcat<J>(a: seq<J>, b: seq<J>)
    ensures AsYields(a + b) == AsYields(a) + AsYields(b)
  {
    assert |AsYields(a + b)| == |AsYields(a) + AsYields(b)|;
  }

  /** The inner `while` loop: cuts every complete span out of `buffer`,
      yielding the resources among them in order. */
  method CutResources<J>(buffer: string, loads: string -> Option<J>, toResource: J -> Option<Resource>)
    returns (rest: string, found: seq<J>)
    ensures (rest, found) == Drain(buffer, loads, toResource)
  {
    rest := buffer;
    found := [];
    assert found + Drain(rest, loads, toResource).1 == Drain(rest, loads, toResource).1;
    while Contains(rest, END_MARKER)
      invariant Drain(buffer, loads, toResource).0 == Drain(rest, loads, toResource).0
      invariant Drain(buffer, loads, toResource).1 == found + Drain(rest, loads, toResource).1
      decreases |rest|
    {
      var startIdx := Find(rest, START_MARKER);
      var endIdx := Find(rest, END_MARKER);
      if startIdx != -1 && endIdx != -1 {
        NextSpanFound(rest);
        DrainStep(rest, loads, toResource);
        var resourceJson := Strip(Slice(rest, startIdx + |START_MARKER|, endIdx));
        assert resourceJson == Strip(NextSpan(rest).value.text);
        var after := rest[endIdx + |END_MARKER|..];
        ghost var tail := Drain(after, loads, toResource).1;
        var parsed := loads(resourceJson);
        if parsed.Some? && toResource(parsed.value).Some? {
          AppendAssoc(found, [parsed.value], tail);
          found := found + [parsed.value];
        } else {
          assert [] + tail == tail;
        }
        rest := after;
      } else {
        break;
      }
    }
    DrainSettled(rest, loads, toResource);
    assert found + [] == found;
  }

  /** The streaming endpoint of generate_referrals, from the moment the model's
      event stream is open. */
  method RunChatCompletion<J>(stream: seq<Event>, loads: string -> Option<J>, toResource: J -> Option<Resource>)
    returns (out: seq<Yield<J>>)
    ensures out == Outputs(stream, loads, toResource)
  {
    var buffer := "";
    var resourceCount := 0;
    ghost var found: seq<J> := [];
    out := [];
    var i := 0;
    while i < |stream|
      invariant 0 <= i <= |stream|
      invariant NextSpan(buffer).None?
      invariant Emitted(stream, loads, toResource) == found + Consume(stream[i..], buffer, loads, toResource).1
      invariant out == AsYields(found) && resourceCount == |found|
    {
      var event := stream[i];
      assert stream[i..][0] == event && stream[i..][1..] == stream[i + 1..];
      if event.Delta? {
        if event.text == "" {
          ConsumeSkip(stream[i..], buffer, loads, toResource);
        } else {
          ConsumeDelta(stream[i..], buffer, loads, toResource);
          var resources;
          buffer, resources := CutResources(buffer + event.text, loads, toResource);
          AppendAssoc(found, resources, Consume(stream[i + 1..], buffer, loads, toResource).1);
          resourceCount := resourceCount + |resources|;
          AsYieldsConcat(found, resources);
          out := out + AsYields(resources);
          found := found + resources;
        }
      } else if event.Done? {
        break;
      } else {
        ConsumeSkip(stream[i..], buffer, loads, toResource);
      }
      i := i + 1;
    }
    if resourceCount == 0 {
      out := out + [ErrorJson(NO_RESOURCES_MESSAGE)];
    }
  }

  // ---- What the endpoint yields depends only on the streamed text ----

  /** Draining `x + y` is draining `x`, then draining what `x` left followed
      by `y`: a span complete in `x` is found before anything `y` adds. */
  lemma {:induction false} DrainAppend<J>(x: string, y: string, loads: string -> Option<J>, toResource: J -> Option<Resource>)
    ensures var dx := Drain(x, loads, toResource);
      var dy := Drain(dx.0 + y, loads, toResource);
      Drain(x + y, loads, toResource) == (dy.0, dx.1 + dy.1)
    decreases |x|
  {
    match NextSpan(x)
    case None =>
      assert [] + Drain(x + y, loads, toResource).1 == Drain(x + y, loads, toResource).1;
    case Some(span) =>
      NextSpanAppend(x, y);
      DrainStep(x, loads, toResource);
      DrainStep(x + y, loads, toResource);
      DrainAppend(span.rest, y, loads, toResource);
      var dr := Drain(span.rest, loads, toResource);
      AppendAssoc(Accept(span.text, loads, toResource), dr.1, Drain(dr.0 + y, loads, toResource).1);
  }

  /** A span complete in `x` is the same span in `x + y`, with `y` kept
      after it. */
  lemma {:induction false} NextSpanAppend(x: string, y: string)
    requires NextSpan(x).Some?
    ensures NextSpan(x + y) == Some(Span(NextSpan(x).value.text, NextSpan(x).value.rest + y))
  {
    FindAppend(x, y, END_MARKER);
    FindAppend(x, y, START_MARKER);
    var startIdx, endIdx := Find(x, START_MARKER), Find(x, END_MARKER);
    NextSpanFound(x);
    NextSpanFound(x + y);
    if startIdx + |START_MARKER| <= endIdx {
      SliceAppend(x, y, startIdx + |START_MARKER|, endIdx);
    }
    DropAppend(x, y, endIdx + |END_MARKER|);
  }

  /** From a buffer the inner loop has settled, the `for` loop ends exactly
      where one drain of the buffer followed by all the text of the deltas
      before `response.done` ends. */
  lemma {:induction false} ConsumeIsDrain<J>(events: seq<Event>, buffer: string, loads: string -> Option<J>, toResource: J -> Option<Resource>)
    requires NextSpan(buffer).None?
    ensures Consume(events, buffer, loads, toResource)
      == Drain(buffer + DeltaText(UntilDone(events)), loads, toResource)
    decreases |events|
  {
    if events == [] || events[0].Done? {
      DeltaTextStop(events);
      assert buffer + "" == buffer;
      DrainSettled(buffer, loads, toResource);
    } else {
      var later := events[1..];
      var rest := DeltaText(UntilDone(later));
      DeltaTextStep(events);
      if events[0].Delta? && events[0].text != "" {
        var text := events[0].text;
        var d := Drain(buffer + text, loads, toResource);
        ConsumeIsDrain(later, d.0, loads, toResource);
        DrainAppend(buffer + text, rest, loads, toResource);
        AppendAssoc(buffer, text, rest);
      } else {
        ConsumeIsDrain(later, buffer, loads, toResource);
      }
    }
  }

  /** The resources the endpoint yields are those of one drain of the whole
      text streamed before `response.done`. */
  lemma {:induction false} EmittedIsDrain<J>(events: seq<Event>, loads: string -> Option<J>, toResource: J -> Option<Resource>)
    ensures Emitted(events, loads, toResource) == Drain(DeltaText(UntilDone(events)), loads, toResource).1
  {
    ConsumeIsDrain(events, "", loads, toResource);
    assert "" + DeltaText(UntilDone(events)) == DeltaText(UntilDone(events));
  }

  /** How the model's text is cut into deltas, and which other events come
      between them, does not change what the endpoint yields. */
  lemma {:induction false} OutputsDependOnTextOnly<J>(e1: seq<Event>, e2: seq<Event>, loads: string -> Option<J>, toResource: J -> Option<Resource>)
    requires DeltaText(UntilDone(e1)) == DeltaText(UntilDone(e2))
    ensures Outputs(e1, loads, toResource) == Outputs(e2, loads, toResource)
  {
    EmittedIsDrain(e1, loads, toResource);
    EmittedIsDrain(e2, loads, toResource);
  }

  /** Nothing the stream sends after `response.done` is looked at. */
  lemma {:induction false} AfterDoneIgnored<J>(events: seq<Event>, more: seq<Event>, loads: string -> Option<J>, toResource: J -> Option<Resource>)
    requires forall k :: 0 <= k < |events| ==> !events[k].Done?
    ensures Outputs(events + [Done] + more, loads, toResource) == Outputs(events, loads, toResource)
  {
    var all := events + [Done] + more;
    assert all[..|events|] == events;
    UntilDoneAt(all, |events|);
    UntilDoneAll(events);
    OutputsDependOnTextOnly(all, events, loads, toResource);
  }

  // ---- Well-framed text ----

  /** A resource as the model is asked to write it: some text, then the
      start marker, the resource's JSON and the end marker. */
  datatype Frame = Frame(lead: string, body: string)

  function Framed(f: Frame): string
  {
    f.lead + START_MARKER + f.body + END_MARKER
  }

  /** The first start marker of the frame is its own, and so is the first
      end marker. */
  predicate WellFramed(f: Frame)
  {
    Find(Framed(f), START_MARKER) == |f.lead|
    && Find(Framed(f), END_MARKER) == |Framed(f)| - |END_MARKER|
  }

  function FramedText(fs: seq<Frame>): string
  {
    if fs == [] then "" else Framed(fs[0]) + FramedText(fs[1..])
  }

  /** What the frames' bodies contribute, in order. */
  function AcceptAll<J>(fs: seq<Frame>, loads: string -> Option<J>, toResource: J -> Option<Resource>): seq<J>
  {
    if fs == [] then [] else Accept(fs[0].body, loads, toResource) + AcceptAll(fs[1..], loads, toResource)
  }

  /** The inner loop cuts a well-framed frame out whole: its stripped body is
      the span's text and whatever follows the frame is kept. */
  lemma {:induction false} NextSpanOfFrame(f: Frame, tail: string)
    requires WellFramed(f)
    ensures NextSpan(Framed(f) + tail) == Some(Span(f.body, tail))
  {
    var x := Framed(f);
    FindAppend(x, tail, START_MARKER);
    FindAppend(x, tail, END_MARKER);
    NextSpanFound(x + tail);
    assert Slice(x + tail, |f.lead| + |START_MARKER|, |x| - |END_MARKER|) == f.body;
    assert (x + tail)[|x|..] == tail;
  }

  /** Every frame of a well-framed text is yielded when its body decodes and
      validates, in order, and the text after the last frame is drained as
      if alone. */
  lemma {:induction false} DrainFrames<J>(fs: seq<Frame>, tail: string, loads: string -> Option<J>, toResource: J -> Option<Resource>)
    requires forall k :: 0 <= k < |fs| ==> WellFramed(fs[k])
    ensures Drain(FramedText(fs) + tail, loads, toResource)
      == (Drain(tail, loads, toResource).0, AcceptAll(fs, loads, toResource) + Drain(tail, loads, toResource).1)
    decreases |fs|
  {
    if fs == [] {
      assert FramedText(fs) + tail == tail;
      assert [] + Drain(tail, loads, toResource).1 == Drain(tail, loads, toResource).1;
    } else {
      var more := FramedText(fs[1..]) + tail;
      assert FramedText(fs) == Framed(fs[0]) + FramedText(fs[1..]);
      AppendAssoc(Framed(fs[0]), FramedText(fs[1..]), tail);
      NextSpanOfFrame(fs[0], more);
      DrainStep(Framed(fs[0]) + more, loads, toResource);
      DrainFrames(fs[1..], tail, loads, toResource);
      AppendAssoc(Accept(fs[0].body, loads, toResource), AcceptAll(fs[1..], loads, toResource),
                  Drain(tail, loads, toResource).1);
    }
  }

  /** A stream whose text is a sequence of well-framed resources yields
      exactly the frames whose bodies decode and validate, in order, and the
      error object exactly when there are none. */
  lemma {:induction false} StreamOfFrames<J>(events: seq<Event>, fs: seq<Frame>, loads: string -> Option<J>, toResource: J -> Option<Resource>)
    requires forall k :: 0 <= k < |fs| ==> WellFramed(fs[k])
    requires DeltaText(UntilDone(events)) == FramedText(fs)
    ensures Emitted(events, loads, toResource) == AcceptAll(fs, loads, toResource)
  {
    EmittedIsDrain(events, loads, toResource);
    DrainFrames(fs, "", loads, toResource);
    assert FramedText(fs) + "" == FramedText(fs);
    assert Drain("", loads, toResource) == ("", []);
    assert AcceptAll(fs, loads, toResource) + [] == AcceptAll(fs, loads, toResource);
  }

  /** The character at index `i` of a frame, region by region. */
  lemma {:induction false} FramedAt(f: Frame, i: nat)
    requires i < |Framed(f)|
    ensures var n, m := |f.lead|, |f.lead| + |START_MARKER| + |f.body|;
      Framed(f)[i]
        == if i < n then f.lead[i]
           else if i < n + |START_MARKER| then START_MARKER[i - n]
           else if i < m then f.body[i - n - |START_MARKER|]
           else END_MARKER[i - m]
  {
  }

  /** A frame whose leading text and body hold no dash is well framed, with
      one exception: the body "RESOURCE_END", where the start marker's last
      three dashes, the body and the end marker's first three dashes spell an
      earlier end marker. */
  lemma {:induction false} DashFreeFrame(f: Frame)
    requires '-' !in f.lead && '-' !in f.body
    requires f.body != "RESOURCE_END"
    ensures WellFramed(f)
  {
    var x := Framed(f);
    var n := |f.lead|;
    var m := n + |START_MARKER| + |f.body|;
    assert x[n..n + |START_MARKER|] == START_MARKER;
    assert x[m..m + |END_MARKER|] == END_MARKER;
    assert OccursAt(x, START_MARKER, n) && OccursAt(x, END_MARKER, m) && m == |x| - |END_MARKER|;
    forall j | 0 <= j < n
      ensures !OccursAt(x, START_MARKER, j)
    {
      NoDashAt(f, x, j, START_MARKER);
    }
    forall j | 0 <= j < m
      ensures !OccursAt(x, END_MARKER, j)
    {
      if j < n || n + |START_MARKER| <= j {
        NoDashAt(f, x, j, END_MARKER);
      } else if OccursAt(x, END_MARKER, j) {
        InsideStart(f, j);
      }
    }
  }

  /** No marker starts on a character of the lead or the body. */
  lemma {:induction false} NoDashAt(f: Frame, x: string, j: nat, marker: string)
    requires x == Framed(f) && '-' !in f.lead && '-' !in f.body
    requires marker == START_MARKER || marker == END_MARKER
    requires j < |f.lead| || |f.lead| + |START_MARKER| <= j < |f.lead| + |START_MARKER| + |f.body|
    ensures !OccursAt(x, marker, j)
  {
    if OccursAt(x, marker, j) {
      FramedAt(f, j);
    }
  }

  /** An end marker starting inside the start marker would need the body to
      be "RESOURCE_END" or to hold a dash. */
  lemma {:induction false} InsideStart(f: Frame, j: nat)
    requires '-' !in f.body && f.body != "RESOURCE_END"
    requires |f.lead| <= j < |f.lead| + |START_MARKER|
    ensures !OccursAt(Framed(f), END_MARKER, j)
  {
    if j < |f.lead| + 17 {
      InsideStartEarly(f, j);
    } else if f.body == [] {
      InsideStartNoBody(f, j);
    } else if j != |f.lead| + 17 {
      InsideStartLastDashes(f, j);
    } else {
      AfterStartDashes(f);
    }
  }

  /** At the start marker's first 17 characters the end marker's text
      already disagrees with the start marker's own. */
  lemma {:induction false} InsideStartEarly(f: Frame, j: nat)
    requires |f.lead| <= j < |f.lead| + 17
    ensures !OccursAt(Framed(f), END_MARKER, j)
  {
    var o := j - |f.lead|;
    var i := if o == 0 then j + 12 else if o < 3 then j + 3 else j;
    FramedAt(f, i);
    OccursAtChar(Framed(f), END_MARKER, j, i);
    assert START_MARKER[i - |f.lead|] != END_MARKER[i - j];
  }

  /** With an empty body, dashes run on from the start marker into the end
      marker, but the 'R' after them comes too late. */
  lemma {:induction false} InsideStartNoBody(f: Frame, j: nat)
    requires f.body == []
    requires |f.lead| + 17 <= j < |f.lead| + |START_MARKER|
    ensures !OccursAt(Framed(f), END_MARKER, j)
  {
    var i := |f.lead| + 22;
    FramedAt(f, i);
    OccursAtChar(Framed(f), END_MARKER, j, i);
    assert END_MARKER[i - j] != '-';
  }

  /** Starting at the start marker's last two dashes, the end marker needs
      a third dash where the body begins. */
  lemma {:induction false} InsideStartLastDashes(f: Frame, j: nat)
    requires '-' !in f.body && f.body != []
    requires |f.lead| + 18 <= j < |f.lead| + |START_MARKER|
    ensures !OccursAt(Framed(f), END_MARKER, j)
  {
    var i := |f.lead| + 20;
    FramedAt(f, i);
    OccursAtChar(Framed(f), END_MARKER, j, i);
    assert f.body[0] in f.body;
  }

  /** Starting at the start marker's last three dashes, the end marker needs
      the body to read "RESOURCE_END" and be followed by dashes. */
  lemma {:induction false} AfterStartDashes(f: Frame)
    requires '-' !in f.body && f.body != [] && f.body != "RESOURCE_END"
    ensures !OccursAt(Framed(f), END_MARKER, |f.lead| + 17)
  {
    var x := Framed(f);
    var j := |f.lead| + 17;
    if |f.body| < 12 {
      var i := j + 3 + |f.body|;
      FramedAt(f, i);
      OccursAtChar(x, END_MARKER, j, i);
      assert END_MARKER[i - j] != '-';
    } else if |f.body| == 12 {
      SpelledBody(f);
    } else {
      var i := j + 15;
      FramedAt(f, i);
      OccursAtChar(x, END_MARKER, j, i);
      assert f.body[12] in f.body;
    }
  }

  /** An end marker starting at the start marker's last three dashes spells
      its own letters with a 12-character body. */
  lemma {:induction false} SpelledBody(f: Frame)
    requires |f.body| == 12
    ensures OccursAt(Framed(f), END_MARKER, |f.lead| + 17) ==> f.body == "RESOURCE_END"
  {
    var x := Framed(f);
    var j := |f.lead| + 17;
    forall k | 0 <= k < 12
      ensures OccursAt(x, END_MARKER, j) ==> f.body[k] == "RESOURCE_END"[k]
    {
      FramedAt(f, j + 3 + k);
      OccursAtChar(x, END_MARKER, j, j + 3 + k);
    }
  }

  // ---- An end marker before the start marker ----

  /** When the first end marker comes before the first start marker has
      ended, the slice between them is empty: the span's text is "". This
      includes an end marker whose leading dashes are the start marker's
      trailing ones. */
  lemma {:induction false} NextSpanMisordered(buffer: string)
    requires Contains(buffer, START_MARKER) && Contains(buffer, END_MARKER)
    requires Find(buffer, END_MARKER) < Find(buffer, START_MARKER) + |START_MARKER|
    ensures NextSpan(buffer) == Some(Span("", buffer[Find(buffer, END_MARKER) + |END_MARKER|..]))
  {
    NextSpanFound(buffer);
  }

  /** Such a span yields nothing, since "" is not JSON, and the buffer is cut
      after the end marker. */
  lemma {:induction false} MisorderedSpanDropped<J>(buffer: string, loads: string -> Option<J>, toResource: J -> Option<Resource>)
    requires Contains(buffer, START_MARKER) && Contains(buffer, END_MARKER)
    requires Find(buffer, END_MARKER) < Find(buffer, START_MARKER) + |START_MARKER|
    requires loads("") == None
    ensures Drain(buffer, loads, toResource)
      == Drain(buffer[Find(buffer, END_MARKER) + |END_MARKER|..], loads, toResource)
  {
    NextSpanMisordered(buffer);
    EmptySpanSkipped(buffer, buffer[Find(buffer, END_MARKER) + |END_MARKER|..], loads, toResource);
  }

  /** A span with no text yields nothing when "" does not decode, and
      draining goes on with the rest. */
  lemma {:induction false} EmptySpanSkipped<J>(buffer: string, rest: string, loads: string -> Option<J>, toResource: J -> Option<Resource>)
    requires NextSpan(buffer) == Some(Span("", rest))
    requires loads("") == None
    ensures Drain(buffer, loads, toResource) == Drain(rest, loads, toResource)
  {
    assert Accept("", loads, toResource) == [] by {
      assert Strip("") == "";
    }
    DrainStep(buffer, loads, toResource);
    var d := Drain(rest, loads, toResource);
    assert [] + d.1 == d.1;
  }
}
