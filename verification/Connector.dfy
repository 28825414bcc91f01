/**
 Connections between a signal and its slots: who points to whom, and when the
 connection and the function object it shares with queued calls are freed.
 Objects are numbered; a connection and its function object share a number.
 Queued tasks of all threads form one multiset, so they may run in any order.
 */
module ConnectorSpec {
  import opened Wrappers

  datatype Kind = Auto | Direct | Queued | Sync

  /** `attached` is a non-null thread_; a detached connection has its delete task queued. */
  datatype Connection = Connection(connector: Option<nat>, guard: Option<nat>, attached: bool, kind: Kind)

  datatype Task = DeleteConnection(c: nat) | CallFunction(f: nat)

  datatype World = World(
    connections: map<nat, Connection>, guards: map<nat, Option<nat>>, connectors: map<nat, set<nat>>,
    refs: map<nat, nat>, queue: multiset<Task>, created: nat,
    freedConnections: multiset<nat>, freedFunctions: multiset<nat>)

  const EMPTY := World(map[], map[], map[], map[], multiset{}, 0, multiset{}, multiset{})

  /**
   `now` says that a released connection is deleted at once: it is not Direct and belongs to another
   thread, or its thread refuses the delete task.
   */
  datatype Event =
    | NewConnector(k: nat) | NewGuard(g: nat)
    | Connect(k: nat, kind: Kind)
    | Bind(g: nat, c: nat, now: bool)          // guard = connection
    | Move(to: nat, from: nat, now: bool)      // guard = std::move(guard)
    | Drop(g: nat, now: bool)                  // ~FunctionConnectionGuard
    | QueueCall(c: nat) | RunTask(t: Task)
    | Detach(c: nat) | DropConnector(k: nat)   // ~AbstractFunctionConnector, connection by connection

  /** `if (--f_->ref_ == 0) delete f_`. */
  function Release(w: World, f: nat): World {
    if f !in w.refs || w.refs[f] == 0 then w
    else if w.refs[f] == 1 then w.(refs := w.refs - {f}, freedFunctions := w.freedFunctions + multiset{f})
    else w.(refs := w.refs[f := w.refs[f] - 1])
  }

  function Unlist(m: map<nat, set<nat>>, x: Connection, c: nat): map<nat, set<nat>> {
    if x.connector.Some? && x.connector.value in m then m[x.connector.value := m[x.connector.value] - {c}] else m
  }

  /** ~Connection. */
  function Delete(w: World, c: nat): World {
    if c !in w.connections then w
    else
      var x := w.connections[c];
      Release(w.(connections := w.connections - {c},
                 guards := if x.guard.Some? then w.guards[x.guard.value := None] else w.guards,
                 connectors := Unlist(w.connectors, x, c),
                 freedConnections := w.freedConnections + multiset{c}), c)
  }

  function CutLoose(w: World, g: nat, c: nat): World
    requires c in w.connections
  {
    w.(guards := w.guards[g := None], connections := w.connections[c := w.connections[c].(attached := false, guard := None)])
  }

  /** destroyConnection of what guard g manages, if anything: cut loose, then deleted at once or by a queued task. */
  function Unbind(w: World, g: nat, now: bool): World {
    if g !in w.guards || w.guards[g].None? || w.guards[g].value !in w.connections then w
    else
      var c := w.guards[g].value;
      if now then Delete(CutLoose(w, g, c), c)
      else CutLoose(w, g, c).(queue := w.queue + multiset{DeleteConnection(c)})
  }

  function BindTo(w: World, g: nat, c: nat): World {
    if c !in w.connections then w
    else w.(guards := w.guards[g := Some(c)], connections := w.connections[c := w.connections[c].(guard := Some(g))])
  }

  predicate Enabled(w: World, e: Event) {
    match e
    case NewConnector(k) => k !in w.connectors
    case NewGuard(g) => g !in w.guards
    case Connect(k, _) => k in w.connectors
    case Bind(g, c, _) => g in w.guards && c in w.connections && w.connections[c].attached && w.connections[c].guard.None?
    case Move(to, from, _) => to in w.guards && from in w.guards && to != from
    case Drop(g, _) => g in w.guards
    case QueueCall(c) => c in w.connections && c in w.refs && w.connections[c].attached && w.connections[c].kind !in {Direct, Sync}
    case RunTask(t) => t in w.queue
    case Detach(c) => c in w.connections && w.connections[c].connector.Some?
    case DropConnector(k) => k in w.connectors && w.connectors[k] == {}
  }

  function Step(w: World, e: Event): World
    requires Enabled(w, e)
  {
    match e
    case NewConnector(k) => w.(connectors := w.connectors[k := {}])
    case NewGuard(g) => w.(guards := w.guards[g := None])
    case Connect(k, kind) =>
      var c := w.created;
      w.(connections := w.connections[c := Connection(Some(k), None, true, kind)],
         connectors := w.connectors[k := w.connectors[k] + {c}], refs := w.refs[c := 1], created := c + 1)
    case Bind(g, c, now) => BindTo(Unbind(w, g, now), g, c)
    case Move(to, from, now) =>
      var r := Unbind(w, to, now);
      if from in r.guards && r.guards[from].Some? then BindTo(r.(guards := r.guards[from := None]), to, r.guards[from].value)
      else r
    case Drop(g, now) =>
      var r := Unbind(w, g, now);
      r.(guards := r.guards - {g})
    case QueueCall(c) => w.(refs := w.refs[c := w.refs[c] + 1], queue := w.queue + multiset{CallFunction(c)})
    case RunTask(t) =>
      var r := w.(queue := w.queue - multiset{t});
      if t.DeleteConnection? then Delete(r, t.c) else Release(r, t.f)
    case Detach(c) =>
      var x := w.connections[c];
      var r := w.(connections := w.connections[c := x.(connector := None)], connectors := Unlist(w.connectors, x, c));
      if x.attached then Delete(r, c) else r
    case DropConnector(k) => w.(connectors := w.connectors - {k})
  }

  // ---- The invariant ----

  /** Guard and connection point to each other, or neither does. */
  ghost predicate GuardsMatch(w: World) {
    && (forall g :: g in w.guards && w.guards[g].Some? ==>
          w.guards[g].value in w.connections && w.connections[w.guards[g].value].guard == Some(g))
    && (forall c :: c in w.connections && w.connections[c].guard.Some? ==>
          && w.connections[c].attached
          && w.connections[c].guard.value in w.guards && w.guards[w.connections[c].guard.value] == Some(c))
  }

  /** A connector lists exactly the connections that point to it. */
  ghost predicate ListsMatch(w: World) {
    && (forall c :: c in w.connections && w.connections[c].connector.Some? ==>
          w.connections[c].connector.value in w.connectors && c in w.connectors[w.connections[c].connector.value])
    && (forall k, c :: k in w.connectors && c in w.connectors[k] ==>
          c in w.connections && w.connections[c].connector == Some(k))
  }

  function Alive(w: World, c: nat): nat { if c in w.connections then 1 else 0 }

  function Detached(w: World, c: nat): nat { if c in w.connections && !w.connections[c].attached then 1 else 0 }

  function Refs(w: World, f: nat): nat { if f in w.refs then w.refs[f] else 0 }

  /** The accounts of connection c and of its function object. */
  ghost predicate Accounts(w: World, c: nat) {
    && w.queue[DeleteConnection(c)] == Detached(w, c)
    && Refs(w, c) == Alive(w, c) + w.queue[CallFunction(c)]
    && (c in w.refs ==> w.refs[c] > 0)
    && w.freedConnections[c] + Alive(w, c) == (if c < w.created then 1 else 0)
    && w.freedFunctions[c] + (if c in w.refs then 1 else 0) == (if c < w.created then 1 else 0)
  }

  ghost predicate Balanced(w: World) {
    forall c: nat :: Accounts(w, c)
  }

  ghost predicate Valid(w: World) { GuardsMatch(w) && ListsMatch(w) && Balanced(w) }

  // ---- Steps keep it ----

  /** Connection c is about to go: its function object counts one reference too many, its deletion is not queued. */
  ghost predicate AccountsButOne(w: World, c: nat) {
    && w.queue[DeleteConnection(c)] == Detached(w, c) == 0
    && c in w.refs && w.refs[c] == Alive(w, c) + w.queue[CallFunction(c)] + 1
    && w.freedConnections[c] + Alive(w, c) == 1 && c < w.created
    && w.freedFunctions[c] == 0
  }

  lemma ReleaseKeeps(w: World, f: nat)
    requires AccountsButOne(w, f) && forall c: nat :: c != f ==> Accounts(w, c)
    ensures Balanced(Release(w, f))
  {
    forall c: nat
      ensures Accounts(Release(w, f), c)
    {
      assert c != f ==> Accounts(w, c);
    }
  }

  /** The accounts depend only on which connections are alive and attached, and on the queue and the references. */
  lemma SameAccounts(w: World, u: World)
    requires Balanced(w) && u.queue == w.queue && u.refs == w.refs && u.created == w.created
    requires u.freedConnections == w.freedConnections && u.freedFunctions == w.freedFunctions
    requires forall c :: c in u.connections <==> c in w.connections
    requires forall c :: c in w.connections ==> u.connections[c].attached == w.connections[c].attached
    ensures Balanced(u)
  {
    forall c: nat
      ensures Accounts(u, c)
    {
      assert Accounts(w, c);
    }
  }

  lemma UnlistKeeps(w: World, c: nat)
    requires GuardsMatch(w) && ListsMatch(w) && c in w.connections
    ensures var x := w.connections[c];
            var r := w.(connections := w.connections - {c},
                        guards := if x.guard.Some? then w.guards[x.guard.value := None] else w.guards,
                        connectors := Unlist(w.connectors, x, c),
                        freedConnections := w.freedConnections + multiset{c});
            GuardsMatch(r) && ListsMatch(r)
  {
  }

  /** The connection is not waiting for its delete task: it is still attached, or the task is yet to be counted. */
  ghost predicate Deletable(w: World, c: nat) {
    && c in w.connections
    && (Accounts(w.(queue := w.queue + multiset{DeleteConnection(c)}), c) || (Accounts(w, c) && w.connections[c].attached))
  }

  lemma DeleteKeeps(w: World, c: nat)
    requires GuardsMatch(w) && ListsMatch(w) && Deletable(w, c) && forall d: nat :: d != c ==> Accounts(w, d)
    ensures Valid(Delete(w, c))
  {
    var x := w.connections[c];
    var r := w.(connections := w.connections - {c},
                guards := if x.guard.Some? then w.guards[x.guard.value := None] else w.guards,
                connectors := Unlist(w.connectors, x, c),
                freedConnections := w.freedConnections + multiset{c});
    UnlistKeeps(w, c);
    hide GuardsMatch, ListsMatch, Unlist;
    assert AccountsButOne(r, c);
    forall d: nat | d != c
      ensures Accounts(r, d)
    {
      assert Accounts(w, d);
    }
    ReleaseKeeps(r, c);
    ReleaseKeepsPointers(r, c);
  }

  lemma ReleaseKeepsPointers(w: World, f: nat)
    ensures GuardsMatch(w) ==> GuardsMatch(Release(w, f))
    ensures ListsMatch(w) ==> ListsMatch(Release(w, f))
  {
    hide Release, GuardsMatch, ListsMatch;
    ReleaseTouchesNoPointer(w, f);
    SamePointers(w, Release(w, f));
  }

  lemma ReleaseTouchesNoPointer(w: World, f: nat)
    ensures var u := Release(w, f);
            u.connections == w.connections && u.guards == w.guards && u.connectors == w.connectors
  {
  }

  lemma SamePointers(w: World, u: World)
    requires u.connections == w.connections && u.guards == w.guards && u.connectors == w.connectors
    ensures GuardsMatch(w) ==> GuardsMatch(u)
    ensures ListsMatch(w) ==> ListsMatch(u)
  {
  }

  lemma CutLooseKeeps(w: World, g: nat, c: nat)
    requires Valid(w) && g in w.guards && w.guards[g] == Some(c)
    ensures c in w.connections && GuardsMatch(CutLoose(w, g, c)) && ListsMatch(CutLoose(w, g, c))
    ensures forall d: nat :: d != c ==> Accounts(CutLoose(w, g, c), d)
    ensures Deletable(CutLoose(w, g, c), c)
  {
    assert Accounts(w, c);
    var r := CutLoose(w, g, c);
    forall d: nat | d != c
      ensures Accounts(r, d)
    {
      assert Accounts(w, d);
    }
  }

  lemma UnbindKeeps(w: World, g: nat, now: bool)
    requires Valid(w) && g in w.guards
    ensures Valid(Unbind(w, g, now))
    ensures g in Unbind(w, g, now).guards && Unbind(w, g, now).guards[g].None?
  {
    if w.guards[g].Some? {
      var c := w.guards[g].value;
      var r := CutLoose(w, g, c);
      CutLooseKeeps(w, g, c);
      hide Deletable, Accounts, Detached, Alive;
      if now {
        DeleteKeeps(r, c);
        hide Valid, Delete;
        DeleteFrame(r, c);
      } else {
        UnbindLaterKeeps(w, g, c);
      }
    }
  }

  lemma UnbindLaterKeeps(w: World, g: nat, c: nat)
    requires Valid(w) && g in w.guards && w.guards[g] == Some(c)
    ensures Valid(CutLoose(w, g, c).(queue := w.queue + multiset{DeleteConnection(c)}))
  {
    var r := CutLoose(w, g, c);
    CutLooseKeeps(w, g, c);
    var u := r.(queue := w.queue + multiset{DeleteConnection(c)});
    assert GuardsMatch(u) && ListsMatch(u);
    assert Accounts(w, c);
    hide GuardsMatch, ListsMatch, Deletable;
    forall d: nat
      ensures Accounts(u, d)
    {
      assert d != c ==> Accounts(r, d);
    }
  }

  lemma DeleteFrame(w: World, c: nat)
    requires c in w.connections
    ensures var u := Delete(w, c);
            && u.connections == w.connections - {c}
            && u.guards == if w.connections[c].guard.Some? then w.guards[w.connections[c].guard.value := None] else w.guards
  {
  }

  /** Unbinding touches only the connection of that guard. */
  lemma UnbindFrame(w: World, g: nat, now: bool)
    requires Valid(w) && g in w.guards
    ensures var u := Unbind(w, g, now);
            && u.guards.Keys == w.guards.Keys
            && (forall h :: h in w.guards && h != g ==> u.guards[h] == w.guards[h])
            && (forall c :: c in w.connections && w.connections[c].guard != Some(g) ==>
                  c in u.connections && u.connections[c] == w.connections[c])
  {
    if w.guards[g].Some? {
      var c := w.guards[g].value;
      assert c in w.connections && w.connections[c].guard == Some(g);
      hide Valid, GuardsMatch, ListsMatch, Balanced, Delete;
      DeleteFrame(CutLoose(w, g, c), c);
    }
  }

  lemma BindKeeps(w: World, g: nat, c: nat)
    requires Valid(w) && g in w.guards && w.guards[g].None?
    requires c in w.connections && w.connections[c].attached && w.connections[c].guard.None?
    ensures Valid(BindTo(w, g, c))
  {
    SameAccounts(w, BindTo(w, g, c));
    hide Balanced;
  }

  lemma MoveOverKeeps(w: World, to: nat, from: nat)
    requires Valid(w) && to in w.guards && from in w.guards && to != from && w.guards[to].None? && w.guards[from].Some?
    ensures Valid(BindTo(w.(guards := w.guards[from := None]), to, w.guards[from].value))
  {
    var u := BindTo(w.(guards := w.guards[from := None]), to, w.guards[from].value);
    assert GuardsMatch(u) && ListsMatch(u);
    hide GuardsMatch, ListsMatch, Balanced;
    SameAccounts(w, u);
  }

  lemma ConnectKeeps(w: World, k: nat, kind: Kind)
    requires Valid(w) && k in w.connectors
    ensures Valid(Step(w, Connect(k, kind)))
  {
    var u := Step(w, Connect(k, kind));
    assert Accounts(w, w.created);
    forall d: nat
      ensures Accounts(u, d)
    {
      assert Accounts(w, d);
    }
  }

  lemma QueueCallKeeps(w: World, c: nat)
    requires Valid(w) && Enabled(w, QueueCall(c))
    ensures Valid(Step(w, QueueCall(c)))
  {
    var u := Step(w, QueueCall(c));
    forall d: nat
      ensures Accounts(u, d)
    {
      assert Accounts(w, d);
    }
  }

  lemma RunDeleteKeeps(w: World, c: nat)
    requires Valid(w) && DeleteConnection(c) in w.queue
    ensures Valid(Step(w, RunTask(DeleteConnection(c))))
  {
    hide GuardsMatch, ListsMatch, Delete;
    var r := w.(queue := w.queue - multiset{DeleteConnection(c)});
    assert Accounts(w, c);
    forall d: nat | d != c
      ensures Accounts(r, d)
    {
      assert Accounts(w, d);
    }
    TakenIsDeletable(w, c);
    hide Deletable, Accounts, Valid;
    SamePointers(w, r);
    DeleteKeeps(r, c);
  }

  lemma TakenIsDeletable(w: World, c: nat)
    requires Accounts(w, c) && DeleteConnection(c) in w.queue
    ensures Deletable(w.(queue := w.queue - multiset{DeleteConnection(c)}), c)
  {
    assert w.queue - multiset{DeleteConnection(c)} + multiset{DeleteConnection(c)} == w.queue;
  }

  lemma RunTaskKeeps(w: World, t: Task)
    requires Valid(w) && t in w.queue
    ensures Valid(Step(w, RunTask(t)))
  {
    match t
    case DeleteConnection(c) => RunDeleteKeeps(w, c);
    case CallFunction(f) =>
      var r := w.(queue := w.queue - multiset{t});
      assert GuardsMatch(r) && ListsMatch(r);
      hide GuardsMatch, ListsMatch, Balanced, Release;
      RunCallKeeps(w, f);
      ReleaseKeepsPointers(r, f);
  }

  lemma RunCallKeeps(w: World, f: nat)
    requires Balanced(w) && CallFunction(f) in w.queue
    ensures Balanced(Release(w.(queue := w.queue - multiset{CallFunction(f)}), f))
  {
    var r := w.(queue := w.queue - multiset{CallFunction(f)});
    assert Accounts(w, f);
    assert r.queue[CallFunction(f)] == w.queue[CallFunction(f)] - 1;
    forall d: nat
      ensures Accounts(Release(r, f), d)
    {
      assert Accounts(w, d);
      if d != f { assert r.queue[CallFunction(d)] == w.queue[CallFunction(d)]; }
      assert r.queue[DeleteConnection(d)] == w.queue[DeleteConnection(d)];
    }
  }

  lemma DetachPointers(w: World, c: nat)
    requires GuardsMatch(w) && ListsMatch(w) && c in w.connections && w.connections[c].connector.Some?
    ensures var x := w.connections[c];
            var r := w.(connections := w.connections[c := x.(connector := None)], connectors := Unlist(w.connectors, x, c));
            GuardsMatch(r) && ListsMatch(r)
  {
  }

  lemma DetachKeeps(w: World, c: nat)
    requires Valid(w) && Enabled(w, Detach(c))
    ensures Valid(Step(w, Detach(c)))
  {
    var x := w.connections[c];
    var r := w.(connections := w.connections[c := x.(connector := None)], connectors := Unlist(w.connectors, x, c));
    DetachPointers(w, c);
    SameAccounts(w, r);
    if x.attached {
      assert Accounts(r, c);
      hide GuardsMatch, ListsMatch, Unlist, Accounts, Valid, Delete;
      DeleteKeeps(r, c);
    } else {
      hide GuardsMatch, ListsMatch, Unlist, Balanced;
    }
  }

  lemma DetachFrame(w: World, c: nat)
    requires Valid(w) && Enabled(w, Detach(c))
    ensures c in w.refs && w.refs[c] > 0 && w.connections[c].connector.value in w.connectors
    ensures var u, k := Step(w, Detach(c)), w.connections[c].connector.value;
            && u.connectors == w.connectors[k := w.connectors[k] - {c}]
            && (forall d :: d != c ==> (d in u.connections <==> d in w.connections))
            && (forall d :: d != c && d in u.connections ==> u.connections[d] == w.connections[d])
            && if w.connections[c].attached then c !in u.connections
               else c in u.connections && u.connections[c] == w.connections[c].(connector := None)
  {
    assert Accounts(w, c);
    hide Accounts, Balanced, GuardsMatch;
  }

  lemma MoveKeeps(w: World, to: nat, from: nat, now: bool)
    requires Valid(w) && Enabled(w, Move(to, from, now))
    ensures Valid(Step(w, Move(to, from, now)))
  {
    UnbindKeeps(w, to, now);
    UnbindFrame(w, to, now);
    var r := Unbind(w, to, now);
    hide Unbind, Valid, BindTo;
    if r.guards[from].Some? { MoveOverKeeps(r, to, from); }
  }

  lemma BindEventKeeps(w: World, g: nat, c: nat, now: bool)
    requires Valid(w) && Enabled(w, Bind(g, c, now))
    ensures Valid(Step(w, Bind(g, c, now)))
  {
    UnbindKeeps(w, g, now);
    UnbindFrame(w, g, now);
    hide Unbind, Valid, BindTo;
    BindKeeps(Unbind(w, g, now), g, c);
  }

  lemma RemoveGuardKeeps(w: World, g: nat)
    requires Valid(w) && g in w.guards && w.guards[g].None?
    ensures Valid(w.(guards := w.guards - {g}))
  {
    SameAccounts(w, w.(guards := w.guards - {g}));
    hide Balanced;
  }

  lemma DropKeeps(w: World, g: nat, now: bool)
    requires Valid(w) && Enabled(w, Drop(g, now))
    ensures Valid(Step(w, Drop(g, now)))
  {
    UnbindKeeps(w, g, now);
    hide Unbind, Valid;
    RemoveGuardKeeps(Unbind(w, g, now), g);
  }

  lemma NewKeeps(w: World, e: Event)
    requires Valid(w) && Enabled(w, e) && (e.NewConnector? || e.NewGuard? || e.DropConnector?)
    ensures Valid(Step(w, e))
  {
    SameAccounts(w, Step(w, e));
    hide Balanced;
  }

  lemma StepKeeps(w: World, e: Event)
    requires Valid(w) && Enabled(w, e)
    ensures Valid(Step(w, e))
  {
    hide Valid, Step;
    match e
    case Connect(k, kind) => ConnectKeeps(w, k, kind);
    case Bind(g, c, now) => BindEventKeeps(w, g, c, now);
    case Move(to, from, now) => MoveKeeps(w, to, from, now);
    case Drop(g, now) => DropKeeps(w, g, now);
    case QueueCall(c) => QueueCallKeeps(w, c);
    case RunTask(t) => RunTaskKeeps(w, t);
    case Detach(c) => DetachKeeps(w, c);
    case _ => NewKeeps(w, e);
  }

  // ---- Runs ----

  ghost predicate IsRun(w: World, es: seq<Event>)
    decreases |es|
  {
    es == [] || (Enabled(w, es[0]) && IsRun(Step(w, es[0]), es[1..]))
  }

  ghost function Run(w: World, es: seq<Event>): World
    requires IsRun(w, es)
    decreases |es|
  {
    if es == [] then w else Run(Step(w, es[0]), es[1..])
  }

  lemma {:induction false} RunKeeps(w: World, es: seq<Event>)
    requires IsRun(w, es) && Valid(w)
    ensures Valid(Run(w, es))
    decreases |es|
  {
    hide Valid, Step, Enabled;
    if es != [] {
      StepKeeps(w, es[0]);
      RunKeeps(Step(w, es[0]), es[1..]);
    }
  }

  lemma EmptyIsValid()
    ensures Valid(EMPTY)
  {
    assert forall c: nat :: Accounts(EMPTY, c);
  }

  /** After any run, a guard manages a connection exactly when that connection names the guard, and lists are as consistent. */
  lemma PointersStayConsistent(es: seq<Event>, g: nat, c: nat)
    requires IsRun(EMPTY, es)
    ensures var w := Run(EMPTY, es);
            && (g in w.guards && w.guards[g] == Some(c) <==> c in w.connections && w.connections[c].guard == Some(g))
            && (g in w.connectors && c in w.connectors[g] <==> c in w.connections && w.connections[c].connector == Some(g))
  {
    EmptyIsValid();
    RunKeeps(EMPTY, es);
  }

  /**
   Every connection ever made is alive or freed exactly once; its function object has one reference
   for the connection while that is alive and one for each queued call, and is freed once, when none
   is left.
   */
  lemma FreedExactlyOnce(es: seq<Event>, c: nat)
    requires IsRun(EMPTY, es) && c < Run(EMPTY, es).created
    ensures var w := Run(EMPTY, es);
            && w.freedConnections[c] == 1 - Alive(w, c)
            && Refs(w, c) == Alive(w, c) + w.queue[CallFunction(c)]
            && w.freedFunctions[c] == (if Alive(w, c) + w.queue[CallFunction(c)] == 0 then 1 else 0)
            && w.queue[DeleteConnection(c)] == Detached(w, c)
  {
    EmptyIsValid();
    RunKeeps(EMPTY, es);
    assert Accounts(Run(EMPTY, es), c);
  }
}

module ConnectorModel {
  import opened Wrappers
  import opened ConnectorSpec
  import opened ConnectorEffects

  class Signals {
    var connections: map<nat, Connection>
    var guards: map<nat, Option<nat>>
    var connectors: map<nat, set<nat>>
    var refs: map<nat, nat>
    var queue: multiset<Task>
    var created: nat
    ghost var freedConnections: multiset<nat>
    ghost var freedFunctions: multiset<nat>

    ghost function View(): World
      reads this
    {
      World(connections, guards, connectors, refs, queue, created, freedConnections, freedFunctions)
    }

    constructor ()
      ensures View() == EMPTY && Valid(View())
    {
      connections, guards, connectors, refs := map[], map[], map[], map[];
      queue, created, freedConnections, freedFunctions := multiset{}, 0, multiset{}, multiset{};
      EmptyIsValid();
    }

    method ConnectSlot(k: nat, kind: Kind) returns (c: nat)
      requires Valid(View()) && k in connectors
      modifies this
      ensures c == old(created) && View() == Step(old(View()), Connect(k, kind)) && Valid(View())
      ensures connections == old(connections)[c := Connection(Some(k), None, true, kind)] && guards == old(guards)
      ensures connectors == old(connectors)[k := old(connectors)[k] + {c}] && refs == old(refs)[c := 1] && queue == old(queue)
    {
      StepKeeps(View(), Connect(k, kind));
      c := created;
      created := created + 1;
      connections := connections[c := Connection(Some(k), None, true, kind)];
      connectors := connectors[k := connectors[k] + {c}];
      refs := refs[c := 1];
    }

    method ReleaseFunction(f: nat)
      requires f in refs && refs[f] > 0
      modifies this`refs, this`freedFunctions
      ensures View() == Release(old(View()), f)
      ensures if old(refs)[f] == 1 then refs == old(refs) - {f} && freedFunctions == old(freedFunctions) + multiset{f}
              else refs == old(refs)[f := old(refs)[f] - 1] && freedFunctions == old(freedFunctions)
    {
      refs := refs[f := refs[f] - 1];
      if refs[f] == 0 {
        refs := refs - {f};
        freedFunctions := freedFunctions + multiset{f};
      }
    }

    method DeleteNow(c: nat)
      requires c in connections && c in refs && refs[c] > 0
      modifies this
      ensures View() == Delete(old(View()), c)
      ensures connections == old(connections) - {c} && freedConnections == old(freedConnections) + multiset{c}
      ensures var x := old(connections)[c]; guards == if x.guard.Some? then old(guards)[x.guard.value := None] else old(guards)
    {
      hide Release;
      var x := connections[c];
      if x.guard.Some? { guards := guards[x.guard.value := None]; }
      if x.connector.Some? && x.connector.value in connectors {
        connectors := connectors[x.connector.value := connectors[x.connector.value] - {c}];
      }
      connections := connections - {c};
      freedConnections := freedConnections + multiset{c};
      ReleaseFunction(c);
    }

    /** destroyConnection, if the guard manages a connection. */
    method DestroyManaged(g: nat, now: bool)
      requires Valid(View()) && g in guards
      modifies this
      ensures View() == Unbind(old(View()), g, now) && Valid(View())
      ensures guards == old(guards)[g := None]
      ensures LetGo(old(View()), View(), g, now) && OthersKept(old(View()), View(), {g}, None)
    {
      UnbindKeeps(View(), g, now);
      UnbindEffect(View(), g, now);
      hide LetGo, OthersKept;
      if guards[g].None? { return; }
      var c := guards[g].value;
      assert Accounts(View(), c);
      connections := connections[c := connections[c].(attached := false, guard := None)];
      guards := guards[g := None];
      if now { DeleteNow(c); } else { queue := queue + multiset{DeleteConnection(c)}; }
    }

    method AssignConnection(g: nat, c: nat, now: bool)
      requires Valid(View()) && Enabled(View(), Bind(g, c, now))
      modifies this
      ensures View() == Step(old(View()), Bind(g, c, now)) && Valid(View())
      ensures guards == old(guards)[g := Some(c)]
      ensures c in connections && connections[c] == old(connections)[c].(guard := Some(g))
      ensures LetGo(old(View()), View(), g, now) && OthersKept(old(View()), View(), {g}, Some(c))
    {
      BindEffect(View(), g, c, now);
      hide LetGo, OthersKept;
      StepKeeps(View(), Bind(g, c, now));
      UnbindFrame(View(), g, now);
      hide Unbind, Valid, GuardsMatch, ListsMatch, Balanced;
      DestroyManaged(g, now);
      guards := guards[g := Some(c)];
      connections := connections[c := connections[c].(guard := Some(g))];
    }

    method MoveGuard(to: nat, from: nat, now: bool)
      requires Valid(View()) && Enabled(View(), Move(to, from, now))
      modifies this
      ensures View() == Step(old(View()), Move(to, from, now)) && Valid(View())
      ensures guards == old(guards)[from := None][to := old(guards)[from]]
      ensures var x := old(guards)[from];
              x.Some? ==> x.value in old(connections) && x.value in connections
                          && connections[x.value] == old(connections)[x.value].(guard := Some(to))
      ensures LetGo(old(View()), View(), to, now) && OthersKept(old(View()), View(), {to, from}, None)
    {
      MoveEffect(View(), to, from, now);
      hide LetGo, OthersKept;
      StepKeeps(View(), Move(to, from, now));
      UnbindFrame(View(), to, now);
      hide Unbind;
      DestroyManaged(to, now);
      var c := guards[from];
      if c.Some? {
        guards := guards[from := None];
        guards := guards[to := c];
        connections := connections[c.value := connections[c.value].(guard := Some(to))];
      }
    }

    method DropGuard(g: nat, now: bool)
      requires Valid(View()) && g in guards
      modifies this
      ensures View() == Step(old(View()), Drop(g, now)) && Valid(View())
      ensures guards == old(guards) - {g} && LetGo(old(View()), View(), g, now) && OthersKept(old(View()), View(), {g}, None)
    {
      DropEffect(View(), g, now);
      hide LetGo, OthersKept;
      StepKeeps(View(), Drop(g, now));
      DestroyManaged(g, now);
      guards := guards - {g};
    }

    method RunQueued(t: Task)
      requires Valid(View()) && t in queue
      modifies this
      ensures View() == Step(old(View()), RunTask(t)) && Valid(View())
      ensures queue == old(queue) - multiset{t}
      ensures t.DeleteConnection? ==>
                connections == old(connections) - {t.c} && freedConnections == old(freedConnections) + multiset{t.c}
      ensures t.CallFunction? ==> connections == old(connections) && freedConnections == old(freedConnections)
    {
      RunTaskEffect(View(), t);
      StepKeeps(View(), RunTask(t));
      assert Accounts(View(), if t.DeleteConnection? then t.c else t.f);
      queue := queue - multiset{t};
      match t
      case DeleteConnection(c) => DeleteNow(c);
      case CallFunction(f) => ReleaseFunction(f);
    }

    /** Whether an emit hands connection c a queued call: not Direct, not Sync, and not run in place on the own thread. */
    predicate Queues(c: nat, here: set<nat>, accepting: set<nat>)
      reads this
    {
      && c in connections && connections[c].attached && c in accepting
      && connections[c].kind !in {Direct, Sync}
      && (connections[c].kind != Queued ==> c !in here)
    }

    /**
     The signal is emitted. `here` are the connections of the calling thread, `accepting` those whose
     thread accepts tasks; a refused task is deleted again at once.
     */
    method Emit(k: nat, here: set<nat>, accepting: set<nat>)
      requires Valid(View()) && k in connectors
      modifies this`refs, this`queue
      ensures Valid(View())
      ensures forall c :: queue[CallFunction(c)] == old(queue)[CallFunction(c)] +
                if c in connectors[k] && c in connections && connections[c].attached && c in accepting
                   && (connections[c].kind == Queued || (connections[c].kind == Auto && c !in here)) then 1 else 0
      ensures forall c :: queue[DeleteConnection(c)] == old(queue)[DeleteConnection(c)]
    {
      var todo := connectors[k];
      while todo != {}
        invariant Valid(View()) && todo <= connectors[k]
        invariant forall c :: queue[CallFunction(c)] ==
                    old(queue)[CallFunction(c)] + if c in connectors[k] - todo && Queues(c, here, accepting) then 1 else 0
        invariant forall c :: queue[DeleteConnection(c)] == old(queue)[DeleteConnection(c)]
        decreases todo
      {
        var c :| c in todo;
        todo := todo - {c};
        if Queues(c, here, accepting) {
          assert Accounts(View(), c);
          hide Valid;
          QueueTask(c);
        }
      }
    }

    /** A queued call of connection c is made and accepted. */
    method QueueTask(c: nat)
      requires Valid(View()) && Enabled(View(), QueueCall(c))
      modifies this`refs, this`queue
      ensures View() == Step(old(View()), QueueCall(c)) && Valid(View())
      ensures refs == old(refs)[c := old(refs)[c] + 1]
      ensures forall d :: queue[CallFunction(d)] == old(queue)[CallFunction(d)] + if d == c then 1 else 0
      ensures forall d :: queue[DeleteConnection(d)] == old(queue)[DeleteConnection(d)]
    {
      StepKeeps(View(), QueueCall(c));
      hide Valid, GuardsMatch, ListsMatch, Balanced;
      refs := refs[c := refs[c] + 1];
      queue := queue + multiset{CallFunction(c)};
    }

    /** ~AbstractFunctionConnector: attached connections are deleted, the others wait for their delete task. */
    method DestroyConnector(k: nat)
      requires Valid(View()) && k in connectors
      modifies this
      ensures Valid(View()) && connectors.Keys == old(connectors).Keys - {k}
      ensures forall c :: c in old(connectors[k]) ==> DetachedFrom(old(connections), connections, c)
    {
      ghost var before, listed := connections, connectors[k];
      hide Valid;
      while connectors[k] != {}
        invariant Valid(View()) && connectors.Keys == old(connectors).Keys && k in connectors && connectors[k] <= listed
        invariant forall c :: c in connectors[k] ==> c in connections && connections[c].connector == Some(k)
        invariant forall c :: c in connectors[k] ==> c in before && connections[c] == before[c]
        invariant forall c :: c in listed - connectors[k] ==> DetachedFrom(before, connections, c)
        decreases connectors[k]
      {
        var c :| c in connectors[k];
        ghost var was, todo := connections, connectors[k];
        DetachOne(c);
        forall d | d in listed - connectors[k]
          ensures DetachedFrom(before, connections, d)
        {
          if d != c { assert d in listed - todo && DetachedFrom(before, was, d); }
        }
      }
      DropEmpty(k);
    }

    method DropEmpty(k: nat)
      requires Valid(View()) && k in connectors && connectors[k] == {}
      modifies this`connectors
      ensures View() == Step(old(View()), DropConnector(k)) && Valid(View()) && connectors == old(connectors) - {k}
    {
      StepKeeps(View(), DropConnector(k));
      connectors := connectors - {k};
    }

    method DetachOne(c: nat)
      requires Valid(View()) && c in connections && connections[c].connector.Some?
      modifies this
      ensures View() == Step(old(View()), Detach(c)) && Valid(View())
      ensures freedConnections == old(freedConnections) + if old(connections)[c].attached then multiset{c} else multiset{}
      ensures var k := old(connections)[c].connector.value;
              k in old(connectors) && connectors == old(connectors)[k := old(connectors)[k] - {c}]
      ensures DetachedFrom(old(connections), connections, c)
      ensures forall d :: d != c ==> (d in connections <==> d in old(connections))
      ensures forall d :: d != c && d in connections ==> connections[d] == old(connections)[d]
    {
      StepKeeps(View(), Detach(c));
      DetachFrame(View(), c);
      hide Valid, GuardsMatch, ListsMatch, Balanced, Accounts;
      var x := connections[c];
      connections := connections[c := x.(connector := None)];
      connectors := connectors[x.connector.value := connectors[x.connector.value] - {c}];
      if x.attached { DeleteNow(c); }
    }
  }

  /** What the end of its connector does to connection c. */
  ghost predicate DetachedFrom(before: map<nat, Connection>, after: map<nat, Connection>, c: nat) {
    c in before &&
    if before[c].attached then c !in after else c in after && after[c] == before[c].(connector := None)
  }
}
