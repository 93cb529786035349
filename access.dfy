/** The access registry `userRequests` (index.js:23): users ask for access
    through `/request-access`, poll `/check-status/:id`, and the administrator
    answers with the Confirm and Decline buttons of a Telegram prompt whose
    callback data is `<action>_<id>`. */
module Access {
  import opened Wrappers
  import Strings

  /** The status of a user; `Unknown` is what an id with no entry reads as
      (`none`) and is never stored. */
  datatype Status = Unknown | Pending | Approved | Declined

  const Confirm := "confirm"
  const Decline := "decline"

  /** What JavaScript turns a missing array element into when it is used as a
      property key or in a template. */
  const Undefined := "undefined"

  /** The `callback_data` of a button: `${action}_${id}`. */
  function Token(action: string, id: string): string
  {
    action + "_" + id
  }

  /** The prompt sent to the administrator: who asks, and the callback data
      of its two buttons. */
  datatype Prompt = Prompt(userId: string, username: string,
                           confirmData: string, declineData: string)

  function PromptFor(id: string, username: string): Prompt
  {
    Prompt(id, username, Token(Confirm, id), Token(Decline, id))
  }

  /** An administrator's button press, as the handler reads it. */
  datatype Callback = Callback(action: string, userId: string)

  /** `const [action, userId] = query.data.split('_')`: the action is the
      data up to the first `_` and the id the run after it, up to the next
      `_` or the end; data without `_` names the id "undefined". */
  function ParseCallback(data: string): (c: Callback)
    ensures '_' !in c.action && '_' !in c.userId
    ensures '_' in data ==>
      c.action + "_" + c.userId == data || c.action + "_" + c.userId + "_" <= data
    ensures '_' !in data ==> c == Callback(data, Undefined)
  {
    var parts := Strings.Split(data, '_');
    Strings.JoinSplit(data, '_');
    if |parts| > 1 then
      var rest := parts[1..];
      assert data == parts[0] + "_" + Strings.Join(rest, '_');
      if |rest| > 1 then
        assert rest[1..] == parts[2..];
        assert Strings.Join(rest, '_') == parts[1] + "_" + Strings.Join(parts[2..], '_');
        assert data == (parts[0] + "_" + parts[1] + "_") + Strings.Join(parts[2..], '_');
        Callback(parts[0], parts[1])
      else
        Callback(parts[0], parts[1])
    else
      assert Strings.Join(parts, '_') == parts[0];
      Callback(parts[0], Undefined)
  }

  /** Parsing a token gives back its action and id when neither contains
      the separator. */
  lemma TokenRoundTrip(action: string, id: string)
    requires '_' !in action && '_' !in id
    ensures ParseCallback(Token(action, id)) == Callback(action, id)
  {
    Strings.SplitAtFirstSeparator(action, id, '_');
    Strings.SplitWithoutSeparator(id, '_');
  }

  /** Each button of a prompt for an id without `_` acts on that id. */
  lemma PromptButtonsActOnUser(id: string, username: string)
    requires '_' !in id
    ensures ParseCallback(PromptFor(id, username).confirmData) == Callback(Confirm, id)
    ensures ParseCallback(PromptFor(id, username).declineData) == Callback(Decline, id)
  {
    TokenRoundTrip(Confirm, id);
    TokenRoundTrip(Decline, id);
  }

  /** An id that contains `_` is cut at its first `_`: the button then acts
      on the id's prefix. */
  lemma TokenCutsIdAtSeparator(action: string, prefix: string, rest: string)
    requires '_' !in action && '_' !in prefix
    ensures ParseCallback(Token(action, prefix + "_" + rest)) == Callback(action, prefix)
  {
    Strings.SplitAtFirstSeparator(action, prefix + "_" + rest, '_');
    Strings.SplitAtFirstSeparator(prefix, rest, '_');
    assert action + "_" + (prefix + "_" + rest) == action + ['_'] + (prefix + ['_'] + rest);
  }

  /** The answer of `/request-access`. */
  datatype AccessReply = Replied(status: Status) | NotifyFailed
  {
    function HttpStatus(): int
    {
      if Replied? then 200 else 500
    }
  }

  /** The text the prompt is edited to after a decision. */
  function ApprovedText(id: string): string
  {
    "\U{2705} User " + id + " Approved"
  }

  function DeclinedText(id: string): string
  {
    "\U{274C} User " + id + " Declined"
  }

  class Registry {
    /** `userRequests`: the status stored for each id that has one. */
    var requests: map<string, Status>

    ghost predicate Valid()
      reads this
    {
      forall id :: id in requests ==> requests[id] != Unknown
    }

    constructor ()
      ensures Valid() && requests == map[]
    {
      requests := map[];
    }

    /** `/check-status/:id`: `userRequests[id] || 'none'`. Stored statuses
        are never empty strings, so an id reads `none` exactly when it has
        no entry. */
    function CheckStatus(id: string): (s: Status)
      reads this
      requires Valid()
      ensures s == Unknown <==> id !in requests
      ensures id in requests ==> s == requests[id]
    {
      if id in requests then requests[id] else Unknown
    }

    /** `/request-access`. An approved id is answered `approved` with no
        change and no prompt. Any other id is set to `pending` first; then the
        administrator is sent a prompt, and when that fails the reply is a 500
        while the `pending` stays. */
    method RequestAccess(id: string, username: string, delivered: bool)
      returns (reply: AccessReply, prompt: Option<Prompt>)
      requires Valid()
      modifies this
      ensures Valid()
      ensures old(CheckStatus(id)) == Approved ==>
        reply == Replied(Approved) && prompt == None && requests == old(requests)
      ensures old(CheckStatus(id)) != Approved ==>
        && requests == old(requests)[id := Pending]
        && prompt == Some(PromptFor(id, username))
        && reply == (if delivered then Replied(Pending) else NotifyFailed)
    {
      if id in requests && requests[id] == Approved {
        return Replied(Approved), None;
      }
      requests := requests[id := Pending];
      prompt := Some(PromptFor(id, username));
      reply := if delivered then Replied(Pending) else NotifyFailed;
    }

    /** The `callback_query` handler. `confirm` sets the id to approved and
        `decline` to declined, whatever it was before, and the prompt is
        edited to say so; any other action changes nothing. */
    method HandleCallback(data: string) returns (edit: Option<string>)
      requires Valid()
      modifies this
      ensures Valid()
      ensures var c := ParseCallback(data);
        && (c.action == Confirm ==>
              requests == old(requests)[c.userId := Approved] && edit == Some(ApprovedText(c.userId)))
        && (c.action == Decline ==>
              requests == old(requests)[c.userId := Declined] && edit == Some(DeclinedText(c.userId)))
        && (c.action != Confirm && c.action != Decline ==>
              requests == old(requests) && edit == None)
    {
      var c := ParseCallback(data);
      if c.action == Confirm {
        requests := requests[c.userId := Approved];
        edit := Some(ApprovedText(c.userId));
      } else if c.action == Decline {
        requests := requests[c.userId := Declined];
        edit := Some(DeclinedText(c.userId));
      } else {
        edit := None;
      }
    }
  }

  /** A user asks twice, is confirmed through the prompt's own button, then
      declined: every later poll sees the latest decision, and a declined
      user asking again is pending again. */
  method ApprovalWorkflow(id: string, username: string)
    requires '_' !in id
  {
    var r := new Registry();
    assert r.CheckStatus(id) == Unknown;
    var reply, prompt := r.RequestAccess(id, username, true);
    assert reply == Replied(Pending) && prompt.Some?;
    reply, prompt := r.RequestAccess(id, username, false);
    assert reply == NotifyFailed && r.CheckStatus(id) == Pending;
    PromptButtonsActOnUser(id, username);
    var edit := r.HandleCallback(prompt.value.confirmData);
    assert r.CheckStatus(id) == Approved && edit == Some(ApprovedText(id));
    reply, prompt := r.RequestAccess(id, username, false);
    assert reply == Replied(Approved) && prompt == None;
    edit := r.HandleCallback(Token(Decline, id));
    assert r.CheckStatus(id) == Declined;
    reply, prompt := r.RequestAccess(id, username, true);
    assert reply == Replied(Pending) && r.CheckStatus(id) == Pending;
  }
}
