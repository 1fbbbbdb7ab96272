/** The chat transcript of an agent run, and what a provider demands of it: every tool call of an
    assistant message is answered before the conversation moves on. */
module Transcript {
  import opened Wrappers

  datatype ToolCall = ToolCall(id: string, name: string, arguments: string)

  datatype Note = Task | WrapUp | CallsLeft(left: nat) | CallToFinish | Repair(error: string) | Reminder

  datatype Message =
    | System
    | User(note: Note)
    | Assistant(content: Option<string>, calls: seq<ToolCall>)
    | Tool(id: string, name: string, body: string)

  function CallIds(calls: seq<ToolCall>): seq<string> {
    seq(|calls|, k requires 0 <= k < |calls| => calls[k].id)
  }

  function AnswerIds(tools: seq<Message>): seq<string>
    requires forall t <- tools :: t.Tool?
  {
    seq(|tools|, k requires 0 <= k < |tools| => assert tools[k] in tools; tools[k].id)
  }

  ghost predicate Distinct(ids: seq<string>) {
    forall j, k :: 0 <= j < k < |ids| ==> ids[j] != ids[k]
  }

  /** `tools` answers every call and nothing but the calls; once each when their ids differ. */
  ghost predicate Answers(calls: seq<ToolCall>, tools: seq<Message>) {
    && (forall t <- tools :: t.Tool?)
    && SameIds(CallIds(calls), AnswerIds(tools))
  }

  ghost predicate SameIds(calls: seq<string>, answers: seq<string>) {
    && (forall id :: id in calls <==> id in answers)
    && (Distinct(calls) ==> |answers| == |calls| && Distinct(answers))
  }

  /** The tool messages right after position `p`, up to `q`, answer the assistant message at `p`,
      and no further tool message follows them. */
  ghost predicate AnsweredBy(ms: seq<Message>, p: nat, q: nat) {
    && p < q <= |ms| && ms[p].Assistant?
    && Answers(ms[p].calls, ms[p + 1..q])
    && (q < |ms| ==> !ms[q].Tool?)
  }

  ghost predicate Valid(ms: seq<Message>) {
    forall p: nat :: p < |ms| && ms[p].Assistant? ==> exists q: nat :: AnsweredBy(ms, p, q)
  }

  lemma PushUser(ms: seq<Message>, note: Note)
    requires Valid(ms)
    ensures Valid(ms + [User(note)])
  {
    var longer := ms + [User(note)];
    forall p: nat | p < |longer| && longer[p].Assistant? ensures exists q: nat :: AnsweredBy(longer, p, q) {
      var q: nat :| AnsweredBy(ms, p, q);
      assert longer[p + 1..q] == ms[p + 1..q];
      assert AnsweredBy(longer, p, q);
    }
  }

  lemma PushAnswered(ms: seq<Message>, a: Message, tools: seq<Message>)
    requires Valid(ms) && a.Assistant? && Answers(a.calls, tools)
    ensures Valid(ms + [a] + tools)
  {
    var longer := ms + [a] + tools;
    assert forall k :: |ms| < k < |longer| ==> longer[k] in tools;
    forall p: nat | p < |longer| && longer[p].Assistant? ensures exists q: nat :: AnsweredBy(longer, p, q) {
      if p < |ms| {
        var q: nat :| AnsweredBy(ms, p, q);
        assert longer[p + 1..q] == ms[p + 1..q];
        assert AnsweredBy(longer, p, q);
      } else {
        assert p == |ms|;
        assert longer[p + 1..|longer|] == tools;
        assert AnsweredBy(longer, p, |longer|);
      }
    }
  }

  /** One answer per call, in order. */
  function AnswerEach(calls: seq<ToolCall>, body: nat -> string): (tools: seq<Message>)
    ensures |tools| == |calls|
  {
    seq(|calls|, k requires 0 <= k < |calls| => Tool(calls[k].id, calls[k].name, body(k)))
  }

  lemma InOrderAnswers(calls: seq<ToolCall>, tools: seq<Message>)
    requires |tools| == |calls|
    requires forall k :: 0 <= k < |calls| ==> tools[k].Tool? && tools[k].id == calls[k].id
    ensures Answers(calls, tools)
  {
    assert forall t <- tools :: t.Tool?;
    assert CallIds(calls) == AnswerIds(tools);
  }

  /** The calls whose id is not `id`. */
  function Others(calls: seq<ToolCall>, id: string): seq<ToolCall> {
    if calls == [] then []
    else if calls[0].id == id then Others(calls[1..], id)
    else [calls[0]] + Others(calls[1..], id)
  }

  function Without(ids: seq<string>, id: string): (rest: seq<string>)
    ensures forall x :: x in rest <==> x in ids && x != id
    ensures id !in ids ==> |rest| == |ids|
  {
    if ids == [] then []
    else if ids[0] == id then Without(ids[1..], id)
    else [ids[0]] + Without(ids[1..], id)
  }

  lemma {:induction false} OthersIds(calls: seq<ToolCall>, id: string)
    ensures CallIds(Others(calls, id)) == Without(CallIds(calls), id)
  {
    if calls != [] {
      OthersIds(calls[1..], id);
      assert CallIds(calls)[1..] == CallIds(calls[1..]);
      if calls[0].id != id {
        assert CallIds(Others(calls, id)) == [calls[0].id] + CallIds(Others(calls[1..], id));
      }
    }
  }

  lemma {:induction false} WithoutDistinct(ids: seq<string>, id: string)
    requires Distinct(ids)
    ensures Distinct(Without(ids, id))
    ensures id in ids ==> |Without(ids, id)| == |ids| - 1
  {
    if ids != [] {
      assert forall k :: 0 <= k < |ids| - 1 ==> ids[1..][k] == ids[k + 1];
      assert ids[0] !in ids[1..];
      WithoutDistinct(ids[1..], id);
    }
  }

  /** A rejected terminal call is answered first, then its siblings. */
  lemma RepairAnswers(calls: seq<ToolCall>, c: ToolCall, error: string, body: nat -> string)
    requires c in calls
    ensures Answers(calls, [Tool(c.id, c.name, error)] + AnswerEach(Others(calls, c.id), body))
  {
    var others := Others(calls, c.id);
    var rest := AnswerEach(others, body);
    var tools := [Tool(c.id, c.name, error)] + rest;
    var k :| 0 <= k < |calls| && calls[k] == c;
    var ids := CallIds(calls);
    assert ids[k] == c.id;
    OthersIds(calls, c.id);
    if Distinct(ids) { WithoutDistinct(ids, c.id); }
    assert AnswerIds(tools) == [c.id] + Without(ids, c.id);
  }
}
