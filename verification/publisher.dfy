/** The publish step of publishLeaderboard: a two-state machine over the
    stored message id. With no truthy id stored, the board is sent as a new
    message and the new message's id is stored; with one, that message is
    edited. index.js keeps the id in `data.channelId`, add.js in
    `config.messageId`; the decision is the same. */
module Publisher {
  import opened JsValues

  /** The Discord call a publish makes. */
  datatype Action = Send(content: string) | Edit(messageId: string, content: string)

  /** `a` is the call a publish makes with the id `before` stored, and
      `after` the id stored once it is done: a send exactly when no truthy
      id is stored, which records the new message's id, and otherwise an
      edit of the stored message, which keeps the id. */
  predicate PublishMove(before: Option<string>, a: Action, after: Option<string>, sentId: string)
  {
    && (a.Send? <==> !StringTruthy(before))
    && (a.Send? ==> after == Some(sentId))
    && (a.Edit? ==> after == before && before == Some(a.messageId))
  }

  /** One publish of `content`. `sentId` is the id Discord gives the message
      if one is sent; the result is the call made and the id stored after. */
  function Publish(stored: Option<string>, content: string, sentId: string): (r: (Action, Option<string>))
    ensures r.0.content == content
    ensures r.0.Send? <==> !StringTruthy(stored)
    ensures r.0.Edit? ==> r.0.messageId == stored.value && r.1 == stored
    ensures r.0.Send? ==> r.1 == Some(sentId)
    ensures PublishMove(stored, r.0, r.1, sentId)
  {
    if StringTruthy(stored) then (Edit(stored.value, content), stored)
    else (Send(content), Some(sentId))
  }

  /** Successive publishes of `contents`, the `k`-th send (if any) being given
      the id `sentIds[k]`. */
  function PublishAll(stored: Option<string>, contents: seq<string>, sentIds: seq<string>): (r: (seq<Action>, Option<string>))
    requires |sentIds| == |contents|
    ensures |r.0| == |contents|
    ensures forall k :: 0 <= k < |contents| ==> r.0[k].content == contents[k]
    decreases |contents|
  {
    if contents == [] then ([], stored)
    else
      var (a, next) := Publish(stored, contents[0], sentIds[0]);
      var (rest, last) := PublishAll(next, contents[1..], sentIds[1..]);
      ([a] + rest, last)
  }

  /** Once a truthy id is stored, every later publish edits that message and
      none sends. */
  lemma {:induction false} StoredIdOnlyEdits(stored: Option<string>, contents: seq<string>, sentIds: seq<string>)
    requires |sentIds| == |contents| && StringTruthy(stored)
    ensures forall k :: 0 <= k < |contents| ==>
              PublishAll(stored, contents, sentIds).0[k] == Edit(stored.value, contents[k])
    ensures PublishAll(stored, contents, sentIds).1 == stored
    decreases |contents|
  {
    if contents != [] {
      StoredIdOnlyEdits(stored, contents[1..], sentIds[1..]);
    }
  }

  /** From no stored id, the first publish sends and records the new id, and
      as long as Discord's id is non-empty every later publish edits that
      message: repeated publishes create exactly one message. */
  lemma SendsOnceThenEdits(stored: Option<string>, contents: seq<string>, sentIds: seq<string>)
    requires |sentIds| == |contents| && contents != []
    requires !StringTruthy(stored) && sentIds[0] != ""
    ensures PublishAll(stored, contents, sentIds).0[0] == Send(contents[0])
    ensures forall k :: 1 <= k < |contents| ==>
              PublishAll(stored, contents, sentIds).0[k] == Edit(sentIds[0], contents[k])
    ensures PublishAll(stored, contents, sentIds).1 == Some(sentIds[0])
  {
    var r := PublishAll(stored, contents, sentIds);
    var rest := PublishAll(Some(sentIds[0]), contents[1..], sentIds[1..]);
    assert r.0 == [Send(contents[0])] + rest.0;
    StoredIdOnlyEdits(Some(sentIds[0]), contents[1..], sentIds[1..]);
    assert forall k :: 1 <= k < |contents| ==> r.0[k] == rest.0[k - 1];
  }

  /** At most one message is ever sent, whatever the starting state, when
      Discord's ids are non-empty. */
  lemma AtMostOneSend(stored: Option<string>, contents: seq<string>, sentIds: seq<string>)
    requires |sentIds| == |contents|
    requires forall k :: 0 <= k < |sentIds| ==> sentIds[k] != ""
    ensures forall i, j :: 0 <= i < j < |contents| && PublishAll(stored, contents, sentIds).0[i].Send? ==>
              PublishAll(stored, contents, sentIds).0[j].Edit?
    ensures StringTruthy(stored) ==> forall k :: 0 <= k < |contents| ==> PublishAll(stored, contents, sentIds).0[k].Edit?
  {
    if StringTruthy(stored) {
      StoredIdOnlyEdits(stored, contents, sentIds);
    } else if contents != [] {
      SendsOnceThenEdits(stored, contents, sentIds);
    }
  }
}
