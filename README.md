# Resource streaming and prompt text utilities

This project is a Dafny model of the text-processing core of two LLM endpoint
wrappers in the referral application.

- `generate_referrals` streams the model's answer. It cuts community
  resources out of the answer between the markers `---RESOURCE_START---` and
  `---RESOURCE_END---`. It yields each span that decodes as JSON and validates
  as a `Resource`, and it yields one error object when no resource came out.
- `generate_action_plan` has four pieces:
  - it forwards the model's non-empty text deltas up to `response.done`;
  - it takes JSON-format instructions out of the prompt with a line filter;
  - `get_resources` turns its argument into `Resource` values;
  - `format_resources` renders resources as text blocks for the prompt.

The modules are:

- `Wrappers`: `Option` and `Result`.
- `Strings`: the Python string operations the code uses. These are `find`,
  `in`, slicing, `strip`, `lower`, `split` and `join`, with their round-trip
  lemmas.
- `Events`: the stream events, which are a text delta, `response.done` or
  any other event. It also has the prefix up to the first `response.done`
  and the non-empty deltas in it.
- `Referrals`: the `Resource` schema and the referral stream loop.
- `ActionPlan`: the forwarder, the prompt filter, `get_resources` and
  `format_resources`.

JSON decoding and pydantic validation are library code, so they are
parameters here:

- `loads: string -> Option<J>` gives the decoded object, or `None` where
  `json.loads` raises.
- `toResource: J -> Option<Resource>` gives the validated resource, or `None`
  where `Resource(**obj)` raises.

The loops of the source are methods: `RunChatCompletion`, `CutResources`,
`ForwardDeltas`, `FilterJsonInstructions` and `FormatResources`. The
`resource_str +=` steps of one pass of the `format_resources` loop body are
the method `FormatBlock`. Each of them is a call of `AppendIfSet`, which
appends a field's line exactly when the field's test holds. Each method is
proved equal to a specification function, and the source's promises are
proved as lemmas about those functions.

Two results go beyond one loop iteration:

- `EmittedIsDrain`: the resources yielded depend only on the concatenated
  delta text before `response.done`, not on how it was cut into deltas.
- `StreamOfFrames`: a text made of well-framed resources yields exactly the
  frames whose bodies validate, in order.

## Model

| member | source | states |
|---|---|---|
| Referrals.ParseReferralType | app/src/pipelines/generate_referrals/pipeline_wrapper.py:24-27 | `ReferralType(s)` succeeds exactly for the three enum values, giving the member whose value is `s` |
| Referrals.NextSpan | app/src/pipelines/generate_referrals/pipeline_wrapper.py:267-278 | an inner-loop pass finds a span exactly when the buffer holds both an end marker and a start marker; the buffer kept is a suffix at least `len(END_MARKER)` shorter |
| Referrals.NextSpanFound | app/src/pipelines/generate_referrals/pipeline_wrapper.py:272-300 | with both markers found, the span is the slice from after the first start marker to the first end marker, and the buffer becomes the text after the first end marker |
| Referrals.Accept | app/src/pipelines/generate_referrals/pipeline_wrapper.py:277-297 | a span contributes at most one object; it contributes exactly when its stripped text decodes and validates as a Resource, and nothing otherwise |
| Referrals.Drain | app/src/pipelines/generate_referrals/pipeline_wrapper.py:267-302 | when the inner loop ends, the buffer no longer holds both an end marker and a start marker, and it is a suffix of the buffer it started from |
| Referrals.DrainYields | app/src/pipelines/generate_referrals/pipeline_wrapper.py:267-302 | every yielded object validates, and each one shortened the buffer by at least the 18 characters of the end marker |
| Referrals.DrainWithoutStart | app/src/pipelines/generate_referrals/pipeline_wrapper.py:267-302 | a buffer with no start marker leaves the loop unchanged and yields nothing, even when it holds an end marker |
| Referrals.DrainStep | app/src/pipelines/generate_referrals/pipeline_wrapper.py:267-300 | one pass yields the span's contribution and then continues on the text after the end marker |
| Referrals.DrainSettled | app/src/pipelines/generate_referrals/pipeline_wrapper.py:267-302 | a buffer that does not hold both markers is left as it is |
| Referrals.CutResources | app/src/pipelines/generate_referrals/pipeline_wrapper.py:267-302 | the inner `while` loop leaves the buffer and yields the resources that `Drain` specifies |
| Referrals.ConsumeDelta | app/src/pipelines/generate_referrals/pipeline_wrapper.py:262-264 | a non-empty delta is appended to the buffer, which is then drained |
| Referrals.ConsumeSkip | app/src/pipelines/generate_referrals/pipeline_wrapper.py:262-263 | a non-delta event or an empty delta leaves the buffer and the output unchanged |
| Referrals.Consume | app/src/pipelines/generate_referrals/pipeline_wrapper.py:259-312 | the event loop yields only resources that validate, and a buffer with no complete span stays so |
| Referrals.Emitted | app/src/pipelines/generate_referrals/pipeline_wrapper.py:259-312 | every resource the endpoint yields validates |
| Referrals.EmptySpanSkipped | app/src/pipelines/generate_referrals/pipeline_wrapper.py:272-300 | a span with no text yields nothing when `""` does not decode, and draining goes on with the text after the end marker |
| Referrals.Outputs | app/src/pipelines/generate_referrals/pipeline_wrapper.py:314-318 | the first outputs are the yielded resources, in order, each as its JSON; one trailing error object follows exactly when no resource was yielded, and it is then the only output |
| Referrals.RunChatCompletion | app/src/pipelines/generate_referrals/pipeline_wrapper.py:253-318 | the endpoint loop yields exactly `Outputs(stream)`, keeping `resource_count` equal to the number of resources yielded so far |
| Referrals.AsYieldsConcat | app/src/pipelines/generate_referrals/pipeline_wrapper.py:287-291 | resources are yielded in the order their spans closed, batch after batch |
| Referrals.DrainAppend | app/src/pipelines/generate_referrals/pipeline_wrapper.py:264-302 | draining `x + y` is draining `x` and then draining its leftover followed by `y` |
| Referrals.NextSpanAppend | app/src/pipelines/generate_referrals/pipeline_wrapper.py:272-300 | a span that is complete in `x` is the same span in `x + y`, and `y` is kept after it |
| Referrals.ConsumeIsDrain | app/src/pipelines/generate_referrals/pipeline_wrapper.py:259-312 | from a settled buffer, the event loop yields what one drain of the buffer plus all the delta text yields |
| Referrals.EmittedIsDrain | app/src/pipelines/generate_referrals/pipeline_wrapper.py:253-312 | the resources yielded are those of one drain of the delta text before `response.done` |
| Referrals.OutputsDependOnTextOnly | app/src/pipelines/generate_referrals/pipeline_wrapper.py:253-318 | two streams with the same delta text before `response.done` give the same outputs |
| Referrals.AfterDoneIgnored | app/src/pipelines/generate_referrals/pipeline_wrapper.py:304-312 | events after the first `response.done` change nothing in the output |
| Referrals.NextSpanOfFrame | app/src/pipelines/generate_referrals/pipeline_wrapper.py:272-300 | a well-framed resource (lead text, start marker, body, end marker) is cut out whole, and its body is the span |
| Referrals.DrainFrames | app/src/pipelines/generate_referrals/pipeline_wrapper.py:267-302 | a text made of well-framed resources yields the frames whose bodies validate, in order |
| Referrals.StreamOfFrames | app/src/pipelines/generate_referrals/pipeline_wrapper.py:253-312 | a stream whose delta text is a run of well-framed resources yields exactly the frames whose bodies validate, in order, however the text is split into deltas |
| Referrals.DashFreeFrame | app/src/pipelines/generate_referrals/pipeline_wrapper.py:272-273 | a frame whose lead and body hold no dash, and whose body is not `RESOURCE_END`, is well framed |
| Referrals.SpelledBody | app/src/pipelines/generate_referrals/pipeline_wrapper.py:272-273 | an end marker that starts inside the start marker's trailing dashes forces the 12-character body to be `RESOURCE_END` |
| Referrals.NextSpanMisordered | app/src/pipelines/generate_referrals/pipeline_wrapper.py:272-300 | when the first end marker starts before the first start marker ends, the span is empty and the buffer is cut after that end marker |
| Referrals.MisorderedSpanDropped | app/src/pipelines/generate_referrals/pipeline_wrapper.py:272-300 | such a span yields nothing (`""` is not JSON), and draining goes on after the end marker |
| Events.UntilDone | app/src/pipelines/generate_referrals/pipeline_wrapper.py:259-312 | the events the loop looks at are a prefix of the stream with no `response.done` in it, stopping exactly at the first `response.done` |
| Events.Deltas | app/src/pipelines/generate_referrals/pipeline_wrapper.py:262-264 | the deltas taken are non-empty, and there are no more of them than events |
| ActionPlan.ForwardDeltas | app/src/pipelines/generate_action_plan/pipeline_wrapper.py:254-267 | the forwarding loop yields exactly the non-empty delta texts before the first `response.done`, in order |
| ActionPlan.DeltaOfOne | app/src/pipelines/generate_action_plan/pipeline_wrapper.py:261-265 | a single event forwards its text exactly when it is a non-empty delta |
| ActionPlan.DoneEndsForwarding | app/src/pipelines/generate_action_plan/pipeline_wrapper.py:266-267 | nothing after the first `response.done` is forwarded |
| ActionPlan.SilentEventSkipped | app/src/pipelines/generate_action_plan/pipeline_wrapper.py:261-265 | another event type or an empty delta before `response.done` forwards nothing |
| ActionPlan.FilterJsonInstructions | app/src/pipelines/generate_action_plan/pipeline_wrapper.py:160-182 | the filtering loop returns the kept lines (by `Filtered`) joined by newlines |
| ActionPlan.IsTrigger | app/src/pipelines/generate_action_plan/pipeline_wrapper.py:165-173 | a line is a trigger when its lower-cased text contains one of the seven phrases; no line shorter than the shortest phrase (11 characters) is one |
| ActionPlan.TriggerIgnoresCase | app/src/pipelines/generate_action_plan/pipeline_wrapper.py:165 | a line and its lower-cased form are triggers alike |
| ActionPlan.NoPhraseInBlank | app/src/pipelines/generate_action_plan/pipeline_wrapper.py:165-173 | every phrase starts with a letter or a backquote, so whitespace-only text holds none of them |
| ActionPlan.Filtered | app/src/pipelines/generate_action_plan/pipeline_wrapper.py:163-181 | the filter keeps at most as many lines as it reads, and never a trigger line |
| ActionPlan.SkippingAfter | app/src/pipelines/generate_action_plan/pipeline_wrapper.py:163-179 | after a trigger line the filter is skipping; after a whitespace-only non-trigger line it is not; from the start, with no trigger line read, it never skips |
| ActionPlan.FilteredKeeps | app/src/pipelines/generate_action_plan/pipeline_wrapper.py:160-182 | the kept lines are a subsequence of the input lines, in the input's order |
| ActionPlan.BlankIsNotTrigger | app/src/pipelines/generate_action_plan/pipeline_wrapper.py:165-177 | a whitespace-only line contains no trigger phrase in lower case |
| ActionPlan.FilteredAppend | app/src/pipelines/generate_action_plan/pipeline_wrapper.py:163-181 | filtering a concatenation filters the second part from the state the first part leaves |
| ActionPlan.SkipThroughBlank | app/src/pipelines/generate_action_plan/pipeline_wrapper.py:177-179 | while skipping, every line through the first whitespace-only line is dropped, and skipping then stops |
| ActionPlan.SkipToEnd | app/src/pipelines/generate_action_plan/pipeline_wrapper.py:177-181 | while skipping with no whitespace-only line ahead, every remaining line is dropped |
| ActionPlan.FromTrigger | app/src/pipelines/generate_action_plan/pipeline_wrapper.py:174-176 | a trigger line is dropped and starts skipping, whatever came before it |
| ActionPlan.TriggerBlockDropped | app/src/pipelines/generate_action_plan/pipeline_wrapper.py:174-181 | a trigger line and every line after it through the next whitespace-only line are dropped; after that, filtering resumes as if fresh |
| ActionPlan.TriggerToEnd | app/src/pipelines/generate_action_plan/pipeline_wrapper.py:174-181 | a trigger line with no whitespace-only line after it drops every line to the end |
| ActionPlan.NoTriggerKeepsAll | app/src/pipelines/generate_action_plan/pipeline_wrapper.py:180-181 | while not skipping, non-trigger lines are all kept |
| ActionPlan.NoTriggerUnchanged | app/src/pipelines/generate_action_plan/pipeline_wrapper.py:160-182 | a message with no trigger line comes out of the filter unchanged (split then join is the identity) |
| ActionPlan.AddOneLine | app/src/pipelines/generate_action_plan/pipeline_wrapper.py:289-300 | appending a line to a block's lines appends that line and a newline to the block's text |
| ActionPlan.AddLine | app/src/pipelines/generate_action_plan/pipeline_wrapper.py:289-300 | adding a field's line when it is present appends that line and a newline to the text |
| ActionPlan.AppendedLines | app/src/pipelines/generate_action_plan/pipeline_wrapper.py:288-300 | the field lines that are present, each ending in a newline, follow the name line |
| ActionPlan.BlockText | app/src/pipelines/generate_action_plan/pipeline_wrapper.py:288-300 | a block is the name line followed by the lines of the fields that are set |
| ActionPlan.AppendIfSet | app/src/pipelines/generate_action_plan/pipeline_wrapper.py:289-300 | `resource_str += line + "\n"` happens exactly when the field's test holds |
| ActionPlan.BuiltBlock | app/src/pipelines/generate_action_plan/pipeline_wrapper.py:288-300 | a block is the name line, then each of the six field lines in source order, each present exactly when the code's truthiness test holds |
| ActionPlan.FormatBlock | app/src/pipelines/generate_action_plan/pipeline_wrapper.py:288-300 | the `+=` sequence for one resource builds exactly `Block(r)` |
| ActionPlan.FormatResources | app/src/pipelines/generate_action_plan/pipeline_wrapper.py:284-302 | `format_resources` returns the resources' blocks, in order, joined by `"\n"` |
| ActionPlan.InPresentLines | app/src/pipelines/generate_action_plan/pipeline_wrapper.py:289-300 | a line is rendered exactly when it is the line of a field whose test holds |
| ActionPlan.FieldKeys | app/src/pipelines/generate_action_plan/pipeline_wrapper.py:289-300 | there are six field lines, told apart by their third character (D, J, A, P, E, W) |
| ActionPlan.FieldLineShown | app/src/pipelines/generate_action_plan/pipeline_wrapper.py:289-300 | a block has a line with a field's prefix exactly when that field is set |
| ActionPlan.FieldLinesShown | app/src/pipelines/generate_action_plan/pipeline_wrapper.py:289-300 | a block has a Description, Justification, Addresses, Phones or Emails line exactly when that field is non-empty, and a Website line exactly when the website is set and not `""` |
| ActionPlan.BlockStart | app/src/pipelines/generate_action_plan/pipeline_wrapper.py:288 | each block begins with `"Name: " + name + "\n"` |
| ActionPlan.FormattedStart | app/src/pipelines/generate_action_plan/pipeline_wrapper.py:284-302 | `format_resources([])` is `""`; the text is `""` only for `[]`; any other text begins with the first resource's name line |
| ActionPlan.TerminatedJoin | app/src/pipelines/generate_action_plan/pipeline_wrapper.py:288-302 | lines each followed by a newline are the newline-join of those lines and one empty line |
| ActionPlan.FormattedIsJoinOfLines | app/src/pipelines/generate_action_plan/pipeline_wrapper.py:284-302 | the text for a non-empty list is the newline-join of each block's lines followed by an empty line |
| ActionPlan.BlockLinesUnbroken | app/src/pipelines/generate_action_plan/pipeline_wrapper.py:288-300 | when the resource's texts hold no line break, no line of its block does (list fields joined with `", "`) |
| ActionPlan.LinesUnbroken | app/src/pipelines/generate_action_plan/pipeline_wrapper.py:284-302 | the same holds for every line of the text |
| ActionPlan.FormattedLines | app/src/pipelines/generate_action_plan/pipeline_wrapper.py:284-302 | for resources without line breaks, splitting the text on `'\n'` gives each block's lines followed by an empty line, one block per resource, in order |
| ActionPlan.ValidateAll | app/src/pipelines/generate_action_plan/pipeline_wrapper.py:281 | the comprehension succeeds exactly when every object validates; it then gives one Resource per object in order; otherwise it raises at the first object that does not validate |
| ActionPlan.GetResources | app/src/pipelines/generate_action_plan/pipeline_wrapper.py:275-281 | an empty list gives `[]`; a list of Resources is returned as it is; a list of objects gives one validated Resource per object, in order, or fails at the first invalid one |
| Strings.Find | app/src/pipelines/generate_referrals/pipeline_wrapper.py:272-273 | `str.find` gives -1 exactly when the pattern is absent, and otherwise the first index where it occurs |
| Strings.ContainsOccurs | app/src/pipelines/generate_referrals/pipeline_wrapper.py:267 | `p in s` holds exactly when `p` occurs at some index of `s` |
| Strings.Slice | app/src/pipelines/generate_referrals/pipeline_wrapper.py:278 | `s[a:b]` is the characters from `a` up to `b`, and `""` when `a` is past `b` |
| Strings.Split | app/src/pipelines/generate_action_plan/pipeline_wrapper.py:160 | `s.split(sep)` gives at least one part, no part holds the separator, and there are at most `len(s) + 1` parts |
| Strings.Join | app/src/pipelines/generate_action_plan/pipeline_wrapper.py:182 | `sep.join(parts)` is `""` for no parts, and otherwise begins with the first part |
| Strings.Lower | app/src/pipelines/generate_action_plan/pipeline_wrapper.py:165 | `s.lower()` keeps the length, lower-cases each character, and leaves no ASCII capital |
| Strings.LowerTwice | app/src/pipelines/generate_action_plan/pipeline_wrapper.py:165 | lower-casing twice is lower-casing once |
| Strings.BlankContainsNone | app/src/pipelines/generate_action_plan/pipeline_wrapper.py:165-176 | whitespace-only text holds no pattern that starts with a non-space character |
| Strings.JoinSplit | app/src/pipelines/generate_action_plan/pipeline_wrapper.py:160-182 | `'\n'.join(s.split('\n')) == s` |
| Strings.SplitJoin | app/src/pipelines/generate_action_plan/pipeline_wrapper.py:160-182 | splitting the join of parts that contain no separator gives back the parts |
| Strings.Strip | app/src/pipelines/generate_referrals/pipeline_wrapper.py:278 | `str.strip()` gives a middle part of the text with only whitespace before and after it; it is `""` exactly when the text is all whitespace, and otherwise neither begins nor ends with whitespace |

## Left out

- The OpenAI client calls, the Haystack `Pipeline` wiring, the hayhooks base
  class, prompt retrieval, tracing and logging are left out. These are I/O
  and observability. The event stream is an input sequence of abstract
  events.
- The outer `except Exception` handlers and the HTTP error mapping in `_run`
  are left out. In `generate_action_plan`, a `GetResources` `Failure` is what
  makes the streaming endpoint's single `"Error: ..."` yield: `get_resources`
  runs inside the `try` at line 114, at line 127, and the handler at lines
  269-272 catches the validation error. `run_api` calls `get_resources` at
  line 67 and lets the error propagate. Neither path is modelled past the
  `Failure` itself. In `generate_referrals`, the handler that yields
  `{"error": ...}` wraps I/O failures that the model has no way to produce.
- `json.loads`, `json.dumps` and pydantic validation are parameters, as
  described above. A yielded resource is the decoded object that the code
  serialises again with `json.dumps`; serialisation is not modelled.
- The prompt assembly around the line filter is left out. This covers the
  prompt constants, the `str.replace` template substitutions, `msg.text or ""`
  and the `"\n\n".join` of the parts. The filter is modelled on one message's
  text.
- `Strings.Lower`: maps ASCII `A`-`Z` and the Kelvin sign to lower case and
  keeps every other character. Full Unicode `str.lower` can change other
  characters. It can also lengthen some, such as `İ`. This cannot change
  whether a line holds one of the ASCII trigger phrases, but the model does
  not prove that.
- `ActionPlan.GetResources`: the argument is the declared union, either all
  `Resource` values or all objects. A mixed list, which the code tests only
  through its first element, is not modelled. A validation failure is a
  `Failure` with the index of the first invalid object rather than a raised
  exception.
- `Referrals.RunChatCompletion`: `resource_count` is kept, and it is proved
  equal to the number of resources yielded. The log line that reports it is
  left out.
- The browser-side SSE frame decoder is not part of this model.
