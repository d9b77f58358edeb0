/** Which of several reported probes of one name ends up in the table, and when reporting the outcome
    back changes it again. This is the arithmetic of the echo loop for a single probe name; Echo.dfy
    ties it to the table and the wire. */
module Winner {
  import opened Text
  import opened Wire
  import opened ProbeTable

  predicate HasHost(ps: seq<Probe>, host: string) {
    exists p :: p in ps && p.host == host
  }

  /** Among reports of one name a repeated target is dropped and the last one upserted stays: the winner
      is the last report whose target had not been reported before. */
  function Winning(ps: seq<Probe>): (w: Probe)
    requires ps != []
  {
    var init, last := ps[..|ps| - 1], ps[|ps| - 1];
    if init != [] && HasHost(init, last.host) then Winning(init) else last
  }

  /** Reports after a non-empty prefix win only by bringing a new target. */
  lemma {:induction false} WinningAfter(a: seq<Probe>, b: seq<Probe>)
    requires a != []
    ensures (forall y :: y in b ==> HasHost(a, y.host)) ==> Winning(a + b) == Winning(a)
    ensures (exists y :: y in b && !HasHost(a, y.host)) ==>
              Winning(a + b) in b && !HasHost(a, Winning(a + b).host)
  {
    if b == [] {
      assert a + b == a;
    } else {
      var init, last := b[..|b| - 1], b[|b| - 1];
      assert b == init + [last];
      WinningAfter(a, init);
      assert (a + b)[..|a + b| - 1] == a + init && (a + b)[|a + b| - 1] == last;
      assert HasHost(a + init, last.host) <==> HasHost(a, last.host) || HasHost(init, last.host);
      if (exists y :: y in b && !HasHost(a, y.host)) && HasHost(a + init, last.host) {
        if HasHost(a, last.host) {
          var y :| y in b && !HasHost(a, y.host);
          assert y in init;
        } else {
          var y :| y in init && y.host == last.host;
          assert !HasHost(a, y.host);
        }
      }
    }
  }

  lemma WinningPair(p: Probe, q: Probe)
    ensures Winning([p]) == p
    ensures Winning([p, q]) == if p.host == q.host then p else q
    ensures forall h :: HasHost([p, q], h) <==> h == p.host || h == q.host
    ensures forall h :: HasHost([p], h) <==> h == p.host
  {
    assert [p, q][..1] == [p] && [p][..0] == [];
    assert p in [p] && p in [p, q] && q in [p, q];
    assert HasHost([p], p.host) && HasHost([p, q], p.host) && HasHost([p, q], q.host);
  }

  /** The served reports of one name: the node's own row, the global row, or both in id order. */
  function ServedPair(own: Option<Probe>, glob: Option<Probe>, ownOlder: bool): seq<Probe> {
    match (own, glob)
    case (None, None) => []
    case (Some(x), None) => [x]
    case (None, Some(g)) => [g]
    case (Some(x), Some(g)) => if ownOlder then [x, g] else [g, x]
  }

  /** A local entry that is not just a repetition of the global row. */
  predicate Foreign(y: Probe, glob: Option<Probe>) {
    glob.Some? ==> y.host != glob.value.host
  }

  /** What decides, besides the local list, whether a name settles: the global row as the agent sees it,
      and whether the node has an own row older than that. */
  datatype Standing = Standing(glob: Option<Probe>, ownOlder: bool)

  /** The conflict that keeps one name from settling, decided before the first echo: two local targets
      that differ from the global one and from each other, or a single such target while the node's own
      row is older than the global row. */
  predicate ContestedName(s: Standing, local: seq<Probe>) {
    || (s.ownOlder && exists y :: y in local && Foreign(y, s.glob))
    || (exists y, z :: y in local && z in local && Foreign(y, s.glob) && Foreign(z, s.glob) && y.host != z.host)
  }

  /** How the own row that the winner leaves behind is served the next time. */
  function Stored(w: Probe): Probe {
    w.(typ := NormalType(w.typ))
  }

  function Next(own: Option<Probe>, glob: Option<Probe>, ownOlder: bool, local: seq<Probe>): Option<Probe> {
    var all := ServedPair(own, glob, ownOlder) + local;
    if all == [] then own else Some(Stored(Winning(all)))
  }

  /** One name settles after one echo exactly when it is not contested. */
  lemma NameSettles(own: Option<Probe>, glob: Option<Probe>, ownOlder: bool, local: seq<Probe>)
    requires ownOlder ==> own.Some? && glob.Some?
    ensures var own' := Next(own, glob, ownOlder, local);
            Next(own', glob, ownOlder, local) == own' <==> !ContestedName(Standing(glob, ownOlder), local)
  {
    var all := ServedPair(own, glob, ownOlder) + local;
    if all == [] {
    } else if glob.None? {
      SettlesWithoutGlobal(own, local);
    } else if ownOlder {
      SettlesOlder(own.value, glob.value, local);
    } else {
      SettlesYounger(own, glob.value, local);
    }
  }

  /** Without a global row: the first report, whoever made it, then the rest of the local list. */
  lemma SettlesAlone(head: Probe, rest: seq<Probe>, local: seq<Probe>)
    requires local == rest || local == [head] + rest
    ensures var x := Stored(Winning([head] + rest));
            Stored(Winning([x] + local)) == x <==> forall y, z :: y in local && z in local ==> y.host == z.host
  {
    WinningPair(head, head);
    WinningAfter([head], rest);
    var w := Winning([head] + rest);
    var x := Stored(w);
    WinningPair(x, x);
    WinningAfter([x], local);
    assert w == head || w in rest;
    if y, z :| y in local && z in local && y.host != z.host {
      assert !HasHost([x], y.host) || !HasHost([x], z.host);
    } else if w in rest {
      assert w in local;
    }
  }

  lemma SettlesWithoutGlobal(own: Option<Probe>, local: seq<Probe>)
    requires own.Some? || local != []
    ensures var own' := Next(own, None, false, local);
            Next(own', None, false, local) == own' <==> !ContestedName(Standing(None, false), local)
  {
    if own.Some? {
      SettlesAlone(own.value, local, local);
    } else {
      assert local == [local[0]] + local[1..] && [] + local == local;
      SettlesAlone(local[0], local[1..], local);
    }
  }

  lemma SettlesOlder(x: Probe, g: Probe, local: seq<Probe>)
    ensures var own' := Next(Some(x), Some(g), true, local);
            Next(own', Some(g), true, local) == own' <==> !ContestedName(Standing(Some(g), true), local)
  {
    WinningPair(x, g);
    WinningAfter([x, g], local);
    var w := Winning([x, g] + local);
    var x' := Stored(w);
    WinningPair(x', g);
    WinningAfter([x', g], local);
  }

  lemma SettlesYounger(own: Option<Probe>, g: Probe, local: seq<Probe>)
    ensures var own' := Next(own, Some(g), false, local);
            Next(own', Some(g), false, local) == own' <==> !ContestedName(Standing(Some(g), false), local)
  {
    var served := ServedPair(own, Some(g), false);
    WinningPair(g, if own.Some? then own.value else g);
    WinningAfter(served, local);
    var w := Winning(served + local);
    var x' := Stored(w);
    WinningPair(g, x');
    WinningAfter([g, x'], local);
  }
}
