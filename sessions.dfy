/** The bot session registry `activeBots` (index.js:24) and `/start-bot`,
    which starts a user's own bot and relays its messages to the completion
    service. */
module Sessions {
  import opened Wrappers
  import Relay

  /** A running `TelegramBot` of a user, polling with `token`, whose message
      handler calls the completion service with `apiKey`. */
  class BotHandle {
    const token: string
    const apiKey: string
    var polling: bool

    /** `new TelegramBot(token, { polling: true })` together with the
        completion client built from `apiKey`. */
    constructor (token: string, apiKey: string)
      ensures this.token == token && this.apiKey == apiKey && polling
    {
      this.token := token;
      this.apiKey := apiKey;
      polling := true;
    }

    /** `stopPolling()`, whose outcome comes from the network: a stop that
        succeeds ends polling, one that fails leaves the handle as it was. */
    method StopPolling(succeeds: bool)
      modifies this
      ensures polling == (old(polling) && !succeeds)
    {
      if succeeds {
        polling := false;
      }
    }
  }

  /** The answer of `/start-bot`. */
  datatype StartReply = Started | StartFailed
  {
    function HttpStatus(): int
    {
      if Started? then 200 else 500
    }
  }

  class Registry {
    /** `activeBots`: the handle last started for each owner. */
    var bots: map<string, BotHandle>

    /** Every handle belongs to one owner only. */
    ghost predicate Valid()
      reads this
    {
      forall a, b :: a in bots && b in bots && a != b ==> bots[a] != bots[b]
    }

    constructor ()
      ensures Valid() && bots == map[]
    {
      bots := map[];
    }

    /** `/start-bot`. The owner's previous handle, if any, is asked to stop,
        and a failure to stop is ignored. Then the new handle is built; only
        when that succeeds does it replace the owner's entry. When it fails
        the map is left as it was, so the old, already stopped handle stays
        registered. Empty tokens and keys are not checked. */
    method StartBot(id: string, botToken: string, apiKey: string,
                    stopSucceeds: bool, constructs: bool)
      returns (reply: StartReply)
      requires Valid()
      modifies this, if id in bots then {bots[id]} else {}
      ensures Valid()
      ensures id in old(bots) ==>
        old(bots)[id].polling == (old(bots[id].polling) && !stopSucceeds)
      ensures forall o :: o in old(bots) && o != id ==>
        old(bots)[o].polling == old(bots[o].polling)
      ensures constructs ==>
        && reply == Started
        && bots.Keys == old(bots).Keys + {id}
        && fresh(bots[id])
        && bots[id].token == botToken && bots[id].apiKey == apiKey && bots[id].polling
        && (forall o :: o in old(bots) && o != id ==> bots[o] == old(bots)[o])
      ensures !constructs ==> reply == StartFailed && bots == old(bots)
    {
      if id in bots {
        bots[id].StopPolling(stopSucceeds);
      }
      if constructs {
        var bot := new BotHandle(botToken, apiKey);
        bots := bots[id := bot];
        reply := Started;
      } else {
        reply := StartFailed;
      }
    }
  }

  /** Two starts for one owner leave exactly the second handle registered
      and the first one stopped, and messages are then answered under the
      second key; a failed third start leaves the second handle registered
      but stopped. */
  method RestartScenario(owner: string, other: string, service: Relay.Service)
    requires owner != other
  {
    var r := new Registry();
    var reply := r.StartBot(owner, "t1", "k1", true, true);
    var first := r.bots[owner];
    reply := r.StartBot(other, "t9", "k9", true, true);
    var bystander := r.bots[other];
    reply := r.StartBot(owner, "t2", "k2", true, true);
    assert reply == Started && !first.polling;
    assert r.bots.Keys == {owner, other};
    assert r.bots[owner].apiKey == "k2" && r.bots[owner] != first;
    assert r.bots[other] == bystander && bystander.polling;
    var hello := Relay.Message(7, Some("hello"));
    var e := Relay.HandleMessage(r.bots[owner].apiKey, hello, service, true);
    assert e.call == Some(Relay.Call("k2", Relay.SingleTurn("hello")));
    var second := r.bots[owner];
    reply := r.StartBot(owner, "", "", true, false);
    assert reply == StartFailed && r.bots[owner] == second && !second.polling;
  }
}
