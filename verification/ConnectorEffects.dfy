/**
 What each event on guards and connections does, told on the maps themselves:
 which guard manages which connection afterwards, what becomes of the connection
 a guard lets go, and that nothing else is touched.
 */
module ConnectorEffects {
  import opened Wrappers
  import opened ConnectorSpec

  /**
   What guard g managed, if anything, is let go: freed at once, or cut loose with its delete task queued.
   No other connection is freed and no other task is queued.
   */
  ghost predicate LetGo(w: World, u: World, g: nat, now: bool) {
    if g !in w.guards || w.guards[g].None? then u.queue == w.queue && u.freedConnections == w.freedConnections
    else
      var c := w.guards[g].value;
      if now then c !in u.connections && u.freedConnections == w.freedConnections + multiset{c} && u.queue == w.queue
      else
        && c in w.connections && c in u.connections
        && u.connections[c] == w.connections[c].(attached := false, guard := None)
        && u.queue == w.queue + multiset{DeleteConnection(c)} && u.freedConnections == w.freedConnections
  }

  /** Connections that name none of these guards, and are not `c`, stay as they are; none appears. */
  ghost predicate OthersKept(w: World, u: World, gs: set<nat>, but: Option<nat>) {
    && u.connections.Keys <= w.connections.Keys && u.created == w.created
    && forall c :: c in w.connections && Some(c) != but && (w.connections[c].guard.None? || w.connections[c].guard.value !in gs) ==>
         c in u.connections && u.connections[c] == w.connections[c]
  }

  lemma DeleteEffect(w: World, c: nat)
    requires c in w.connections
    ensures var u := Delete(w, c);
            && u.connections == w.connections - {c} && u.freedConnections == w.freedConnections + multiset{c}
            && u.queue == w.queue && u.created == w.created
            && u.guards == (if w.connections[c].guard.Some? then w.guards[w.connections[c].guard.value := None] else w.guards)
  {
  }

  lemma LetGoNow(w: World, u: World, g: nat, c: nat)
    requires g in w.guards && w.guards[g] == Some(c) && c in w.connections && w.connections[c].guard == Some(g)
    requires u.connections == w.connections - {c} && u.freedConnections == w.freedConnections + multiset{c}
    requires u.queue == w.queue && u.created == w.created
    ensures LetGo(w, u, g, true) && OthersKept(w, u, {g}, None)
  {
  }

  lemma LetGoLater(w: World, u: World, g: nat, c: nat)
    requires g in w.guards && w.guards[g] == Some(c) && c in w.connections && w.connections[c].guard == Some(g)
    requires u.connections == w.connections[c := w.connections[c].(attached := false, guard := None)]
    requires u.freedConnections == w.freedConnections && u.created == w.created
    requires u.queue == w.queue + multiset{DeleteConnection(c)}
    ensures LetGo(w, u, g, false) && OthersKept(w, u, {g}, None)
  {
  }

  lemma UnbindEffect(w: World, g: nat, now: bool)
    requires Valid(w) && g in w.guards
    ensures var u := Unbind(w, g, now);
            u.guards == w.guards[g := None] && LetGo(w, u, g, now) && OthersKept(w, u, {g}, None)
  {
    if w.guards[g].None? {
      assert w.guards[g := None] == w.guards;
      hide Valid;
      return;
    }
    var c := w.guards[g].value;
    assert c in w.connections && w.connections[c].guard == Some(g);
    hide Valid, GuardsMatch, ListsMatch, Balanced, Delete, LetGo, OthersKept;
    var u := Unbind(w, g, now);
    if now {
      DeleteEffect(CutLoose(w, g, c), c);
      assert u.connections == w.connections - {c};
      LetGoNow(w, u, g, c);
    } else {
      LetGoLater(w, u, g, c);
    }
  }

  /** Binding a connection that was not let go changes nothing else. */
  lemma BoundAfter(w: World, r: World, u: World, g: nat, now: bool, gs: set<nat>, c: nat)
    requires LetGo(w, r, g, now) && OthersKept(w, r, gs, None) && c in r.connections
    requires g in w.guards && w.guards[g] != Some(c)
    requires c in u.connections && u.connections == r.connections[c := u.connections[c]] && u.queue == r.queue
    requires u.freedConnections == r.freedConnections && u.created == r.created
    ensures LetGo(w, u, g, now) && OthersKept(w, u, gs, Some(c))
  {
    forall d | d in u.connections
      ensures d in w.connections
    {
      assert d in r.connections;
    }
  }

  lemma BindToEffect(w: World, g: nat, c: nat)
    requires c in w.connections
    ensures var u := BindTo(w, g, c);
            && u.guards == w.guards[g := Some(c)]
            && u.connections == w.connections[c := w.connections[c].(guard := Some(g))]
            && u.queue == w.queue && u.freedConnections == w.freedConnections && u.created == w.created
  {
  }

  /** A guard assigned a connection manages it and no other; what it managed before is let go. */
  lemma BindEffect(w: World, g: nat, c: nat, now: bool)
    requires Valid(w) && g in w.guards && c in w.connections && w.connections[c].attached && w.connections[c].guard.None?
    ensures Enabled(w, Bind(g, c, now))
    ensures var u := Step(w, Bind(g, c, now));
            && u.guards == w.guards[g := Some(c)]
            && c in u.connections && u.connections[c] == w.connections[c].(guard := Some(g))
            && LetGo(w, u, g, now) && OthersKept(w, u, {g}, Some(c))
  {
    UnbindEffect(w, g, now);
    var r := Unbind(w, g, now);
    assert w.guards[g].Some? ==> w.connections[w.guards[g].value].guard == Some(g);
    assert c in r.connections && r.connections[c] == w.connections[c];
    hide Valid, GuardsMatch, ListsMatch, Balanced, Unbind, BindTo, LetGo, OthersKept;
    BindToEffect(r, g, c);
    BoundAfter(w, r, BindTo(r, g, c), g, now, {g}, c);
  }

  /**
   A guard assigned from another manages what that one managed, which then manages nothing; what it
   managed before is let go, and every other guard and connection is as it was.
   */
  lemma MoveEffect(w: World, to: nat, from: nat, now: bool)
    requires Valid(w) && to in w.guards && from in w.guards && to != from
    ensures Enabled(w, Move(to, from, now))
    ensures var u, x := Step(w, Move(to, from, now)), w.guards[from];
            && u.guards == w.guards[from := None][to := x]
            && (x.Some? ==> x.value in w.connections && x.value in u.connections
                            && u.connections[x.value] == w.connections[x.value].(guard := Some(to)))
            && LetGo(w, u, to, now) && OthersKept(w, u, {to, from}, None)
  {
    hide Valid, Unbind, BindTo, LetGo;
    UnbindEffect(w, to, now);
    var r, x := Unbind(w, to, now), w.guards[from];
    if x.None? {
      NothingMoves(w, r, to, from);
    } else {
      var c := x.value;
      GuardNamed(w, from);
      if w.guards[to].Some? { GuardNamed(w, to); }
      assert c in r.connections && r.connections[c] == w.connections[c];
      hide OthersKept;
      var m := r.(guards := r.guards[from := None]);
      BindToEffect(m, to, c);
      BoundAfter(w, r, BindTo(m, to, c), to, now, {to}, c);
      MovedIsNamed(w, BindTo(m, to, c), to, from, c);
    }
  }

  lemma GuardNamed(w: World, g: nat)
    requires Valid(w) && g in w.guards && w.guards[g].Some?
    ensures var c := w.guards[g].value; c in w.connections && w.connections[c].guard == Some(g)
  {
    hide ListsMatch, Balanced;
  }

  lemma NothingMoves(w: World, r: World, to: nat, from: nat)
    requires to in w.guards && from in w.guards && to != from && w.guards[from].None?
    requires r.guards == w.guards[to := None] && OthersKept(w, r, {to}, None)
    ensures r.guards == w.guards[from := None][to := None] && OthersKept(w, r, {to, from}, None)
  {
  }

  lemma MovedIsNamed(w: World, u: World, to: nat, from: nat, c: nat)
    requires c in w.connections && w.connections[c].guard == Some(from) && OthersKept(w, u, {to}, Some(c))
    ensures OthersKept(w, u, {to, from}, None)
  {
  }

  /** A guard that ends lets go what it manages. */
  lemma DropEffect(w: World, g: nat, now: bool)
    requires Valid(w) && g in w.guards
    ensures Enabled(w, Drop(g, now))
    ensures var u := Step(w, Drop(g, now));
            u.guards == w.guards - {g} && LetGo(w, u, g, now) && OthersKept(w, u, {g}, None)
  {
    UnbindEffect(w, g, now);
    hide Valid, Unbind;
  }

  /** A new connection is attached, of the kind asked for, in its connector's list, and no guard's. */
  lemma ConnectEffect(w: World, k: nat, kind: Kind)
    requires k in w.connectors
    ensures Enabled(w, Connect(k, kind))
    ensures var u, c := Step(w, Connect(k, kind)), w.created;
            && u.connections == w.connections[c := Connection(Some(k), None, true, kind)]
            && u.connectors == w.connectors[k := w.connectors[k] + {c}]
            && u.refs == w.refs[c := 1] && u.created == c + 1 && u.guards == w.guards && u.queue == w.queue
  {
  }

  /** The delete task frees its connection and no other; a call gives its reference back. */
  lemma RunTaskEffect(w: World, t: Task)
    requires Valid(w) && t in w.queue
    ensures Enabled(w, RunTask(t))
    ensures var u := Step(w, RunTask(t));
            && u.queue == w.queue - multiset{t} && u.created == w.created
            && (t.DeleteConnection? ==>
                  && t.c in w.connections && u.connections == w.connections - {t.c}
                  && u.freedConnections == w.freedConnections + multiset{t.c})
            && (t.CallFunction? ==>
                  && u.connections == w.connections && u.guards == w.guards && u.freedConnections == w.freedConnections
                  && Refs(u, t.f) == Refs(w, t.f) - 1)
  {
    assert Accounts(w, if t.DeleteConnection? then t.c else t.f);
    var r := w.(queue := w.queue - multiset{t});
    hide Valid, GuardsMatch, ListsMatch, Balanced, Delete;
    if t.DeleteConnection? { DeleteEffect(r, t.c); }
  }

  /** A connector that ends forgets the connection, and frees it when it is attached. */
  lemma DetachEffect(w: World, c: nat)
    requires Valid(w) && c in w.connections && w.connections[c].connector.Some?
    ensures Enabled(w, Detach(c))
    ensures var u := Step(w, Detach(c)); var x := w.connections[c];
            && u.queue == w.queue
            && (if x.attached then u.connections == w.connections - {c} && u.freedConnections == w.freedConnections + multiset{c}
                else u.connections == w.connections[c := x.(connector := None)] && u.freedConnections == w.freedConnections)
            && u.guards == (if x.attached && x.guard.Some? then w.guards[x.guard.value := None] else w.guards)
  {
    var x := w.connections[c];
    var r := w.(connections := w.connections[c := x.(connector := None)], connectors := Unlist(w.connectors, x, c));
    assert x.guard.Some? ==> x.attached;
    hide Valid, GuardsMatch, ListsMatch, Balanced, Delete, Unlist;
    DeleteEffect(r, c);
  }
}
