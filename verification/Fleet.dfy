/** The echo loops of several nodes at once, interleaved in any order: besides the turns of Echo.dfy there are
    turns in which the agent could not fetch its configuration and reports its local list alone
    (cmd/agent/main.go). */
module Fleet {
  import opened Text
  import opened Wire
  import opened ProbeTable
  import opened Winner
  import opened Echo

  /** One report of a node; `fetched` says whether it got the remote list, which is empty otherwise. */
  datatype Turn = Turn(uuid: string, fetched: bool)

  function LocalOnce(t: Table, uuid: string, local: string): Table {
    ReceiveAll(t, uuid, Parse("" + "," + local))
  }

  function TurnOnce(t: Table, turn: Turn, local: string): Table {
    if turn.fetched then EchoOnce(t, turn.uuid, local) else LocalOnce(t, turn.uuid, local)
  }

  /** A run of turns; every node has a local list of its own. */
  function Run(t: Table, turns: seq<Turn>, localOf: string -> string): Table {
    if turns == [] then t
    else
      var turn := turns[|turns| - 1];
      TurnOnce(Run(t, turns[..|turns| - 1], localOf), turn, localOf(turn.uuid))
  }

  /** One turn of the agent without its remote list. */
  method LocalTurn(store: ProbeTasks, uuid: string, local: string)
    modifies store
    ensures store.State() == LocalOnce(old(store.State()), uuid, local)
  {
    var remote := "";
    var probes := ParseProbes(remote + "," + local);
    ReceiveReport(store, uuid, probes);
  }

  // ---------- one turn ----------

  /** What the agent parses in a turn, before dedupe. */
  function OfferedIn(t: Table, turn: Turn, local: string): seq<Probe> {
    if turn.fetched then Offered(t.rows, turn.uuid, local) else LocalItems(local)
  }

  lemma LocalIsOffered(local: string)
    ensures Parse("" + "," + local) == Dedupe(LocalItems(local))
  {
    assert Print([]) == "";
    ParseJoined([], local);
    assert Items(PrintParts([])) == [];
    assert [] + LocalItems(local) == LocalItems(local);
  }

  lemma TurnReceives(t: Table, turn: Turn, local: string)
    requires Ready(t, turn.uuid, local)
    ensures TurnOnce(t, turn, local) == ReceiveAll(t, turn.uuid, Dedupe(OfferedIn(t, turn, local)))
    ensures Parsable(OfferedIn(t, turn, local)) && forall p :: p in OfferedIn(t, turn, local) ==> CleanProbe(p)
  {
    if turn.fetched {
      ReportedIsOffered(t, turn.uuid, local);
      OfferedShape(t, turn.uuid, local);
    } else {
      LocalIsOffered(local);
      LocalShape(local);
    }
  }

  lemma TurnExtends(t: Table, turn: Turn, local: string)
    requires Ready(t, turn.uuid, local)
    ensures Valid(TurnOnce(t, turn, local)) && Extends(t, turn.uuid, TurnOnce(t, turn, local))
  {
    TurnReceives(t, turn, local);
    ReceivedRows(t, turn.uuid, Dedupe(OfferedIn(t, turn, local)));
  }

  /** A turn leaves the node's row of a name alone or servable, and the age order of it and the global row as
      it was. */
  lemma TurnName(t: Table, turn: Turn, local: string, name: string)
    requires Ready(t, turn.uuid, local)
    ensures var own, own' := Own(t, turn.uuid, name), Own(TurnOnce(t, turn, local), turn.uuid, name);
            && Older(own', Global(t, name)) == Older(own, Global(t, name))
            && (own' != own ==> own'.Some? && Servable(own'.value))
  {
    var t', offered := TurnOnce(t, turn, local), OfferedIn(t, turn, local);
    TurnReceives(t, turn, local);
    ReceivedName(t, turn.uuid, offered, name);
    LookupMember(t.rows, Key("*", name));
    LookupMember(t'.rows, Key(turn.uuid, name));
    var all := Named(offered, name);
    if all == [] {
    } else {
      WinningMember(all);
      assert Winning(all) in offered;
      OutcomeSeen(Winning(all), Own(t', turn.uuid, name).value);
    }
  }

  /** After a failed fetch the node's row of a name is the winner among its local entries of that name, and stays
      as it was if there are none. */
  lemma FailedTurnName(t: Table, uuid: string, local: string, name: string)
    requires Ready(t, uuid, local)
    ensures Outcome(t.mark, Own(t, uuid, name), Named(LocalItems(local), name),
                    Own(TurnOnce(t, Turn(uuid, false), local), uuid, name))
  {
    TurnReceives(t, Turn(uuid, false), local);
    ReceivedName(t, uuid, LocalItems(local), name);
  }

  lemma TurnGlobal(t: Table, turn: Turn, local: string, name: string)
    requires Ready(t, turn.uuid, local)
    ensures Global(TurnOnce(t, turn, local), name) == Global(t, name)
  {
    TurnExtends(t, turn, local);
    OtherClientsUnchanged(t, turn.uuid, TurnOnce(t, turn, local), Key("*", name));
  }

  /** Nobody's turn touches another node's rows. */
  lemma TurnOther(t: Table, turn: Turn, local: string, uuid: string, name: string)
    requires Ready(t, turn.uuid, local) && uuid != turn.uuid
    ensures Own(TurnOnce(t, turn, local), uuid, name) == Own(t, uuid, name)
  {
    TurnExtends(t, turn, local);
    OtherClientsUnchanged(t, turn.uuid, TurnOnce(t, turn, local), Key(uuid, name));
  }

  lemma TurnStanding(t: Table, turn: Turn, local: string, uuid: string, name: string)
    requires Ready(t, turn.uuid, local)
    ensures StandingOf(TurnOnce(t, turn, local), uuid, name) == StandingOf(t, uuid, name)
  {
    TurnGlobal(t, turn, local, name);
    if uuid == turn.uuid {
      TurnName(t, turn, local, name);
    } else {
      TurnOther(t, turn, local, uuid, name);
    }
  }

  /** Every visible row of the new table stems from a servable one or was left servable. */
  lemma TurnServable(t: Table, turn: Turn, local: string, uuid: string, localThere: string, r: Row)
    requires Ready(t, turn.uuid, local) && Ready(t, uuid, localThere)
    requires r in TurnOnce(t, turn, local).rows && Visible(r, uuid)
    ensures Servable(r)
  {
    var t' := TurnOnce(t, turn, local);
    TurnExtends(t, turn, local);
    LookupUnique(t', r);
    LookupMember(t.rows, KeyOf(r));
    if r.client == turn.uuid {
      TurnName(t, turn, local, r.name);
    } else {
      OtherClientsUnchanged(t, turn.uuid, t', KeyOf(r));
    }
  }

  lemma TurnReady(t: Table, turn: Turn, local: string, uuid: string, localThere: string)
    requires Ready(t, turn.uuid, local) && Ready(t, uuid, localThere)
    ensures Ready(TurnOnce(t, turn, local), uuid, localThere)
  {
    var t' := TurnOnce(t, turn, local);
    TurnExtends(t, turn, local);
    forall r | r in t'.rows && Visible(r, uuid) ensures Servable(r) {
      TurnServable(t, turn, local, uuid, localThere, r);
    }
  }

  // ---------- whole runs ----------

  ghost predicate AllReady(t: Table, turns: seq<Turn>, localOf: string -> string) {
    forall turn :: turn in turns ==> Ready(t, turn.uuid, localOf(turn.uuid))
  }

  /** What every turn keeps, every run keeps. */
  lemma {:induction false} RunReady(t: Table, turns: seq<Turn>, localOf: string -> string, uuid: string)
    requires AllReady(t, turns, localOf) && Ready(t, uuid, localOf(uuid))
    ensures Ready(Run(t, turns, localOf), uuid, localOf(uuid))
  {
    if turns == [] {
    } else {
      var init, turn := turns[..|turns| - 1], turns[|turns| - 1];
      assert turns == init + [turn];
      RunReady(t, init, localOf, uuid);
      RunReady(t, init, localOf, turn.uuid);
      TurnReady(Run(t, init, localOf), turn, localOf(turn.uuid), uuid, localOf(uuid));
    }
  }

  lemma {:induction false} RunStanding(t: Table, turns: seq<Turn>, localOf: string -> string, uuid: string,
                                       name: string)
    requires AllReady(t, turns, localOf)
    ensures StandingOf(Run(t, turns, localOf), uuid, name) == StandingOf(t, uuid, name)
  {
    if turns == [] {
    } else {
      var init, turn := turns[..|turns| - 1], turns[|turns| - 1];
      assert turns == init + [turn];
      RunStanding(t, init, localOf, uuid, name);
      RunReady(t, init, localOf, turn.uuid);
      TurnStanding(Run(t, init, localOf), turn, localOf(turn.uuid), uuid, name);
    }
  }

  /** The node has had a turn, and its last one got the remote list. */
  predicate Refreshed(turns: seq<Turn>, uuid: string) {
    turns != [] &&
    if turns[|turns| - 1].uuid == uuid then turns[|turns| - 1].fetched else Refreshed(turns[..|turns| - 1], uuid)
  }

  /** Whether an echo changes the node's row of a name is told by that row and the global one. */
  lemma SameStep(t: Table, t': Table, uuid: string, local: string, name: string)
    requires Ready(t, uuid, local) && Ready(t', uuid, local)
    requires Own(t, uuid, name) == Own(t', uuid, name) && Global(t, name) == Global(t', name)
    ensures Own(EchoOnce(t, uuid, local), uuid, name) == Own(t, uuid, name)
            <==> Own(EchoOnce(t', uuid, local), uuid, name) == Own(t', uuid, name)
  {
    var after, after' := Own(EchoOnce(t, uuid, local), uuid, name), Own(EchoOnce(t', uuid, local), uuid, name);
    EchoName(t, uuid, local, name);
    EchoName(t', uuid, local, name);
    LookupMember(EchoOnce(t, uuid, local).rows, Key(uuid, name));
    LookupMember(EchoOnce(t', uuid, local).rows, Key(uuid, name));
    if after.Some? && after'.Some? {
      SeenExactly(after.value);
      SeenExactly(after'.value);
    }
  }

  lemma {:induction false} RunNameSettled(t: Table, turns: seq<Turn>, localOf: string -> string, uuid: string,
                                          name: string)
    requires AllReady(t, turns, localOf) && Ready(t, uuid, localOf(uuid)) && Refreshed(turns, uuid)
    ensures var t' := Run(t, turns, localOf);
            Own(EchoOnce(t', uuid, localOf(uuid)), uuid, name) == Own(t', uuid, name)
            <==> !ContestedName(StandingOf(t, uuid, name), Named(LocalItems(localOf(uuid)), name))
  {
    var init, turn := turns[..|turns| - 1], turns[|turns| - 1];
    assert turns == init + [turn];
    var before, local := Run(t, init, localOf), localOf(uuid);
    RunReady(t, init, localOf, uuid);
    RunReady(t, init, localOf, turn.uuid);
    if turn.uuid == uuid {
      NameUnchanged(before, uuid, local, name);
      RunStanding(t, init, localOf, uuid, name);
    } else {
      RunNameSettled(t, init, localOf, uuid, name);
      TurnOther(before, turn, localOf(turn.uuid), uuid, name);
      TurnGlobal(before, turn, localOf(turn.uuid), name);
      TurnReady(before, turn, localOf(turn.uuid), uuid, local);
      SameStep(before, Run(t, turns, localOf), uuid, local, name);
    }
  }

  /** Convergence in a fleet, exactly: after any interleaving of turns, with and without the remote list, in
      which the node's last one had it, the node's next echo leaves the table unchanged if and only if none of
      the node's names was contested at the start. */
  lemma FleetSettles(t: Table, turns: seq<Turn>, localOf: string -> string, uuid: string)
    requires AllReady(t, turns, localOf) && Ready(t, uuid, localOf(uuid)) && Refreshed(turns, uuid)
    ensures var t' := Run(t, turns, localOf);
            EchoOnce(t', uuid, localOf(uuid)).rows == t'.rows <==> ForecastOf(t, uuid, localOf(uuid)) == Settles
  {
    var t' := Run(t, turns, localOf);
    RunReady(t, turns, localOf, uuid);
    EchoExtends(t', uuid, localOf(uuid));
    SameRows(t', uuid, EchoOnce(t', uuid, localOf(uuid)));
    forall name
      ensures Own(EchoOnce(t', uuid, localOf(uuid)), uuid, name) == Own(t', uuid, name)
              <==> !ContestedName(StandingOf(t, uuid, name), Named(LocalItems(localOf(uuid)), name))
    {
      RunNameSettled(t, turns, localOf, uuid, name);
    }
  }

  /** A turn with the remote list, of a node that has been refreshed and does not contest a name. */
  ghost predicate Quiet(t: Table, turns: seq<Turn>, localOf: string -> string, turn: Turn) {
    turn.fetched && Refreshed(turns, turn.uuid) && ForecastOf(t, turn.uuid, localOf(turn.uuid)) == Settles
  }

  lemma {:induction false} StaysRefreshed(turns: seq<Turn>, more: seq<Turn>, uuid: string)
    requires Refreshed(turns, uuid) && forall turn :: turn in more ==> turn.fetched
    ensures Refreshed(turns + more, uuid)
  {
    if more == [] {
      assert turns + more == turns;
    } else {
      var init := more[..|more| - 1];
      assert more == init + [more[|more| - 1]];
      StaysRefreshed(turns, init, uuid);
      assert (turns + more)[..|turns + more| - 1] == turns + init;
    }
  }

  lemma RestStep(t: Table, turns: seq<Turn>, localOf: string -> string, turn: Turn)
    requires AllReady(t, turns, localOf) && Ready(t, turn.uuid, localOf(turn.uuid))
    requires Quiet(t, turns, localOf, turn)
    ensures Run(t, turns + [turn], localOf).rows == Run(t, turns, localOf).rows
  {
    FleetSettles(t, turns, localOf, turn.uuid);
    assert (turns + [turn])[..|turns|] == turns;
  }

  /** A fleet without contested names comes to rest: once its nodes are refreshed, no sequence of further
      echoes, in whatever order, changes the table. */
  lemma {:induction false} FleetRests(t: Table, turns: seq<Turn>, localOf: string -> string, more: seq<Turn>)
    requires AllReady(t, turns, localOf) && AllReady(t, more, localOf)
    requires forall turn :: turn in more ==> Quiet(t, turns, localOf, turn)
    ensures Run(t, turns + more, localOf).rows == Run(t, turns, localOf).rows
  {
    if more == [] {
      assert turns + more == turns;
    } else {
      var init, turn := more[..|more| - 1], more[|more| - 1];
      assert more == init + [turn];
      assert turns + more == turns + init + [turn];
      FleetRests(t, turns, localOf, init);
      StaysRefreshed(turns, init, turn.uuid);
      RestStep(t, turns + init, localOf, turn);
    }
  }
}
