/**
 * The events of an OpenAI Responses API stream, as both pipeline wrappers
 * see them: a text delta, the `response.done` event, or any other event.
 * A delta event whose `delta` attribute is missing or None is a `Delta("")`:
 * the wrappers treat both like an empty delta.
 */
module Events {
  import opened Strings

  datatype Event =
    | Delta(text: string)   // type "response.output_text.delta"
    | Done                  // type "response.done"
    | Other                 // any other event type

  /** The events the wrappers' loops look at: those before the first `Done`. */
  function UntilDone(events: seq<Event>): (r: seq<Event>)
    ensures |r| <= |events| && r == events[..|r|]
    ensures forall k :: 0 <= k < |r| ==> !r[k].Done?
    ensures |r| < |events| ==> events[|r|].Done?
  {
    if events == [] || events[0].Done? then []
    else [events[0]] + UntilDone(events[1..])
  }

  /** The non-empty delta texts among `events`, in order. */
  function Deltas(events: seq<Event>): (r: seq<string>)
    ensures |r| <= |events|
    ensures forall k :: 0 <= k < |r| ==> r[k] != ""
  {
    if events == [] then []
    else if events[0].Delta? && events[0].text != "" then [events[0].text] + Deltas(events[1..])
    else Deltas(events[1..])
  }

  /** All the text the stream's deltas carry, in order. */
  function DeltaText(events: seq<Event>): string
  {
    Concat(Deltas(events))
  }

  /** UntilDone cuts exactly at the first `Done`, wherever it is. */
  lemma {:induction false} UntilDoneAt(events: seq<Event>, i: nat)
    requires i < |events| && events[i].Done?
    requires forall k :: 0 <= k < i ==> !events[k].Done?
    ensures UntilDone(events) == events[..i]
  {
  }

  /** A stream without `Done` is looked at to its end. */
  lemma {:induction false} UntilDoneAll(events: seq<Event>)
    requires forall k :: 0 <= k < |events| ==> !events[k].Done?
    ensures UntilDone(events) == events
  {
  }

  lemma {:induction false} DeltasAppend(a: seq<Event>, b: seq<Event>)
    ensures Deltas(a + b) == Deltas(a) + Deltas(b)
  {
    if a == [] {
      assert a + b == b;
    } else {
      DeltasAppend(a[1..], b);
      assert (a + b)[0] == a[0] && (a + b)[1..] == a[1..] + b;
      if a[0].Delta? && a[0].text != "" {
        AppendAssoc([a[0].text], Deltas(a[1..]), Deltas(b));
      }
    }
  }

  /** Events with no `Done` among them are all looked at, and the looking goes
      on into what follows them. */
  lemma {:induction false} UntilDoneAppend(a: seq<Event>, b: seq<Event>)
    requires forall k :: 0 <= k < |a| ==> !a[k].Done?
    ensures UntilDone(a + b) == a + UntilDone(b)
  {
    if a == [] {
      assert a + b == b;
    } else {
      UntilDoneAppend(a[1..], b);
      assert (a + b)[0] == a[0] && (a + b)[1..] == a[1..] + b;
      AppendAssoc([a[0]], a[1..], UntilDone(b));
      assert [a[0]] + a[1..] == a;
    }
  }

  /** At the end of the stream or at `response.done` no more text comes. */
  lemma {:induction false} DeltaTextStop(events: seq<Event>)
    requires events == [] || events[0].Done?
    ensures DeltaText(UntilDone(events)) == ""
  {
  }

  /** Any other first event contributes its delta text, if any, ahead of the
      rest of the stream's text. */
  lemma {:induction false} DeltaTextStep(events: seq<Event>)
    requires events != [] && !events[0].Done?
    ensures DeltaText(UntilDone(events))
      == (if events[0].Delta? then events[0].text else "") + DeltaText(UntilDone(events[1..]))
  {
    var later := UntilDone(events[1..]);
    assert UntilDone(events) == [events[0]] + later;
    DeltasAppend([events[0]], later);
    ConcatAppend(Deltas([events[0]]), Deltas(later));
    if events[0].Delta? && events[0].text != "" {
      assert Deltas([events[0]]) == [events[0].text];
      assert Concat([events[0].text]) == events[0].text;
    } else {
      assert Deltas([events[0]]) == [];
      assert "" + DeltaText(later) == DeltaText(later);
    }
  }
}
