/**
  The rule lifecycle of `manager.rs` over the key-value store of `kv.rs`.

  Every operation holds one lock, writes the store, and then changes memory; a store write
  may fail, and the process may die between any two steps. Task handles are attached by
  `set_rule_handle`, which does not take that lock, so it may run between any two steps of
  an operation. The state machine below interleaves all of these.
 */
module Manager {
  import opened Common

  /** A rule definition; `body` is everything but the id and the tags. */
  datatype Def = Def(id: string, tags: seq<string>, body: string)

  datatype Rule = Rule(def: Def, status: string, handle: Option<nat>)

  /** A stored value: an envelope that deserialises, or one that does not. */
  datatype Entry = Stored(def: Def, status: string) | Corrupt

  type Rules = map<string, Rule>
  type Store = map<string, Entry>

  datatype Op =
    | Create(def: Def) | Update(def: Def) | Retag(id: string, tags: seq<string>)
    | Halt(id: string) | Start(id: string) | Stop(id: string) | Restart(id: string) | Delete(id: string)

  function Target(op: Op): string {
    match op
    case Create(def) => def.id
    case Update(def) => def.id
    case Retag(id, _) => id
    case Halt(id) => id
    case Start(id) => id
    case Stop(id) => id
    case Restart(id) => id
    case Delete(id) => id
  }

  // ----- What an operation writes and what it then does to memory -----

  datatype Write = Put(key: string, entry: Entry) | Remove(key: string)

  function Apply(kv: Store, w: Write): Store {
    match w
    case Put(k, e) => kv[k := e]
    case Remove(k) => kv - {k}
  }

  /** The write an operation wants, or `None` when it is refused. */
  function Plan(rules: Rules, op: Op): Option<Write> {
    var id := Target(op);
    if op.Create? then (if id in rules then None else Some(Put(id, Stored(op.def, "running"))))
    else if id !in rules then None
    else
      var r := rules[id];
      match op
      case Update(def) => Some(Put(id, Stored(def, if r.status == "running" then "running" else "stopped")))
      case Retag(_, tags) => Some(Put(id, Stored(r.def.(tags := tags), r.status)))
      case Start(_) => Some(Put(id, Stored(r.def, "running")))
      case Restart(_) => Some(Put(id, Stored(r.def, "running")))
      case Delete(_) => Some(Remove(id))
      case _ => Some(Put(id, Stored(r.def, "stopped")))
  }

  /** `update_rule` decided before its write whether the rule was running. */
  predicate WasRunning(w: Write) {
    w.Put? && w.entry.Stored? && w.entry.status == "running"
  }

  /** The rule an operation leaves in memory. */
  function Settle(r: Rule, op: Op, w: Write): Rule {
    match op
    case Create(def) => Rule(def, "running", None)
    case Update(def) => Rule(def, r.status, if WasRunning(w) then None else r.handle)
    case Retag(_, tags) => r.(def := r.def.(tags := tags))
    case Start(_) => r.(status := "running")
    case Restart(_) => r.(status := "running", handle := None)
    case _ => r.(status := "stopped", handle := None)
  }

  function Commit(rules: Rules, op: Op, w: Write): Rules {
    var id := Target(op);
    match op
    case Create(def) => rules[id := Rule(def, "running", None)]
    case Delete(_) => rules - {id}
    case _ => if id in rules then rules[id := Settle(rules[id], op, w)] else rules
  }

  /** The tasks an operation aborts. */
  function Aborts(rules: Rules, op: Op, w: Write): set<nat> {
    var id := Target(op);
    if id in rules && rules[id].handle.Some?
       && (op.Delete? || op.Halt? || op.Stop? || op.Restart? || (op.Update? && WasRunning(w)))
    then {rules[id].handle.value} else {}
  }

  // ----- Loading -----

  /** Unknown statuses load as stopped. */
  function Normal(status: string): string {
    if status == "running" then "running" else "stopped"
  }

  function Loaded(e: Entry): Rule
    requires e.Stored?
  {
    Rule(e.def, Normal(e.status), None)
  }

  /** What `load_from_kv` leaves when every readable entry is under its own id. */
  function Load(kv: Store): Rules {
    map k | k in kv && kv[k].Stored? :: Loaded(kv[k])
  }

  /** The loop of `load_from_kv`: later entries replace earlier ones under the id they carry. */
  function LoadAll(entries: seq<(string, Entry)>, rules: Rules): Rules {
    if entries == [] then rules
    else
      var e := entries[0].1;
      LoadAll(entries[1..], if e.Stored? then rules[e.def.id := Loaded(e)] else rules)
  }

  /** Readable entries are under their own id. */
  predicate WellKeyed(kv: Store) {
    forall k | k in kv && kv[k].Stored? :: kv[k].def.id == k
  }

  /** `entries` lists the store: all its entries and nothing else. */
  predicate Lists(entries: seq<(string, Entry)>, kv: Store) {
    && (forall i | 0 <= i < |entries| :: entries[i].0 in kv && kv[entries[i].0] == entries[i].1)
    && (forall k | k in kv :: exists i | 0 <= i < |entries| :: entries[i] == (k, kv[k]))
  }

  lemma {:induction false} LoadAllKeeps(entries: seq<(string, Entry)>, rules: Rules, kv: Store)
    requires WellKeyed(kv)
    requires forall i | 0 <= i < |entries| :: entries[i].0 in kv && kv[entries[i].0] == entries[i].1
    requires forall k | k in rules :: k in Load(kv) && rules[k] == Load(kv)[k]
    ensures var r := LoadAll(entries, rules);
            && (forall k | k in r :: k in Load(kv) && r[k] == Load(kv)[k])
            && (forall k | k in rules :: k in r)
            && (forall i | 0 <= i < |entries| :: entries[i].1.Stored? ==> entries[i].0 in r)
  {
    if entries != [] {
      var e := entries[0].1;
      var next := if e.Stored? then rules[e.def.id := Loaded(e)] else rules;
      LoadAllKeeps(entries[1..], next, kv);
      var r := LoadAll(entries, rules);
      forall i | 0 <= i < |entries|
        ensures entries[i].1.Stored? ==> entries[i].0 in r
      {
        if i > 0 {
          assert entries[i] == entries[1..][i - 1];
        } else {
          assert e.Stored? ==> e.def.id == entries[0].0 && entries[0].0 in next;
        }
      }
    }
  }

  /** The loop, over any listing of the store, restores exactly the readable entries. */
  lemma {:induction false} LoadAllIsLoad(entries: seq<(string, Entry)>, kv: Store)
    requires WellKeyed(kv) && Lists(entries, kv)
    ensures LoadAll(entries, map[]) == Load(kv)
  {
    LoadAllKeeps(entries, map[], kv);
  }

  /** Entry by entry: a readable one restores its rule without a task, running only if it was stored as that. */
  lemma {:induction false} LoadedRules(entries: seq<(string, Entry)>, kv: Store)
    requires WellKeyed(kv) && Lists(entries, kv)
    ensures var rules := LoadAll(entries, map[]);
            && (forall k :: k in rules <==> k in kv && kv[k].Stored?)
            && (forall k | k in rules ::
                  rules[k] == Rule(kv[k].def, if kv[k].status == "running" then "running" else "stopped", None))
  {
    LoadAllIsLoad(entries, kv);
  }

  /** Under whatever key an entry is, its rule goes under its own id, and the last one wins. */
  lemma {:induction false} LastEntryWins(entries: seq<(string, Entry)>, key: string, e: Entry, rules: Rules)
    ensures LoadAll(entries + [(key, e)], rules)
            == if e.Stored?
               then LoadAll(entries, rules)[e.def.id :=
                      Rule(e.def, if e.status == "running" then "running" else "stopped", None)]
               else LoadAll(entries, rules)
    decreases |entries|
  {
    var all := entries + [(key, e)];
    if entries == [] {
      assert all == [(key, e)] && all[1..] == [];
    } else {
      var first := entries[0].1;
      assert all[0] == entries[0] && all[1..] == entries[1..] + [(key, e)];
      LastEntryWins(entries[1..], key, e, if first.Stored? then rules[first.def.id := Loaded(first)] else rules);
    }
  }

  // ----- The state machine -----

  /** The operation under the lock: decided, or written but not yet in memory. */
  datatype Phase = Idle | Begun(op: Op, write: Write) | Written(op: Op, write: Write)

  /**
    `owner` records every task ever handed to `set_rule_handle` with the rule it was handed
    for; `aborted` holds those that were aborted.
   */
  datatype State = State(rules: Rules, kv: Option<Store>, phase: Phase, owner: map<nat, string>, aborted: set<nat>)

  datatype Event =
    | Begin(op: Op)
    | Persist(ok: bool)
    | Finish
    | SetHandle(id: string, task: nat)
    | MarkError(id: string)
    | Crash

  /** A task handle is moved into `set_rule_handle`, so no task is handed over twice. */
  predicate Enabled(s: State, e: Event) {
    match e
    case Begin(_) => s.phase.Idle?
    case Persist(ok) => s.phase.Begun? && (s.kv.None? ==> ok)
    case Finish => s.phase.Written?
    case SetHandle(_, t) => t !in s.owner
    case MarkError(id) => id in s.rules
    case Crash => true
  }

  function Next(s: State, e: Event): State
    requires Enabled(s, e)
  {
    match e
    case Begin(op) =>
      var w := Plan(s.rules, op);
      if w.None? then s else s.(phase := Begun(op, w.value))
    case Persist(ok) =>
      if !ok then s.(phase := Idle)
      else s.(phase := Written(s.phase.op, s.phase.write),
              kv := if s.kv.None? then None else Some(Apply(s.kv.value, s.phase.write)))
    case Finish =>
      s.(rules := Commit(s.rules, s.phase.op, s.phase.write), phase := Idle,
         aborted := s.aborted + Aborts(s.rules, s.phase.op, s.phase.write))
    case SetHandle(id, t) =>
      var s1 := s.(owner := s.owner[t := id]);
      if id !in s.rules then s1.(aborted := s.aborted + {t})
      else if s.rules[id].status != "running" then
        s1.(aborted := s.aborted + {t}, rules := s.rules[id := s.rules[id].(handle := None)])
      else
        s1.(aborted := s.aborted + Held(s.rules[id]), rules := s.rules[id := s.rules[id].(handle := Some(t))])
    case MarkError(id) => s.(rules := s.rules[id := s.rules[id].(status := "error")])
    case Crash =>
      State(if s.kv.None? then map[] else Load(s.kv.value), s.kv, Idle, map[], {})
  }

  function Held(r: Rule): set<nat> {
    if r.handle.Some? then {r.handle.value} else {}
  }

  predicate Runs(s: State, events: seq<Event>)
    decreases |events|
  {
    events == [] || (Enabled(s, events[0]) && Runs(Next(s, events[0]), events[1..]))
  }

  function After(s: State, events: seq<Event>): State
    requires Runs(s, events)
    decreases |events|
  {
    if events == [] then s else After(Next(s, events[0]), events[1..])
  }

  /** A daemon that has just loaded its store, or that has none. */
  predicate Initial(s: State) {
    && s.phase.Idle? && s.owner == map[] && s.aborted == {}
    && (s.kv.None? ==> s.rules == map[])
    && (s.kv.Some? ==> WellKeyed(s.kv.value) && s.rules == Load(s.kv.value))
  }

  // ----- Persistence -----

  predicate Settled(status: string) {
    status == "running" || status == "stopped"
  }

  /** Memory and store agree on a rule, up to a status of "error", which is never stored first. */
  predicate RuleAgrees(r: Rule, e: Entry) {
    e.Stored? && e.def == r.def && (Settled(r.status) ==> Normal(e.status) == r.status)
  }

  predicate Agrees(rules: Rules, kv: Store) {
    && (forall id | id in rules :: id in kv && RuleAgrees(rules[id], kv[id]))
    && (forall k | k in kv && kv[k].Stored? :: k in rules)
  }

  predicate Named(rules: Rules) {
    forall id | id in rules :: rules[id].def.id == id
  }

  /** The store matches memory until the write, and what memory will be after it. */
  predicate PersistInv(s: State) {
    && Named(s.rules)
    && (s.phase.Idle? || Named(Commit(s.rules, s.phase.op, s.phase.write)))
    && (s.kv.Some? ==>
          && WellKeyed(s.kv.value)
          && (!s.phase.Written? ==> Agrees(s.rules, s.kv.value))
          && (s.phase.Begun? ==> WellKeyed(Apply(s.kv.value, s.phase.write))
                                 && Agrees(Commit(s.rules, s.phase.op, s.phase.write),
                                           Apply(s.kv.value, s.phase.write)))
          && (s.phase.Written? ==> Agrees(Commit(s.rules, s.phase.op, s.phase.write), s.kv.value)))
  }

  lemma {:induction false} PlanAgrees(rules: Rules, kv: Store, op: Op)
    requires Named(rules) && WellKeyed(kv) && Agrees(rules, kv) && Plan(rules, op).Some?
    ensures var w := Plan(rules, op).value;
            WellKeyed(Apply(kv, w)) && Agrees(Commit(rules, op, w), Apply(kv, w))
  {
  }

  lemma {:induction false} PlanIsNamed(rules: Rules, op: Op)
    requires Named(rules) && Plan(rules, op).Some?
    ensures Named(Commit(rules, op, Plan(rules, op).value))
  {
  }

  /** Memory with one rule given another handle, or marked "error". */
  predicate Touched(a: Rules, b: Rules) {
    && a.Keys == b.Keys
    && forall id | id in a :: a[id].def == b[id].def && (b[id].status == a[id].status || b[id].status == "error")
  }

  lemma {:induction false} TouchingAgrees(a: Rules, b: Rules, kv: Store)
    requires Touched(a, b) && Agrees(a, kv)
    ensures Agrees(b, kv)
  {
  }

  lemma {:induction false} TouchingNamed(a: Rules, b: Rules)
    requires Touched(a, b) && Named(a)
    ensures Named(b)
  {
  }

  lemma {:induction false} CommitTouched(a: Rules, b: Rules, op: Op, w: Write)
    requires Touched(a, b)
    ensures Touched(Commit(a, op, w), Commit(b, op, w))
  {
  }

  lemma {:induction false} NextKeepsPersistInv(s: State, e: Event)
    requires PersistInv(s) && Enabled(s, e)
    ensures PersistInv(Next(s, e))
  {
    match e
    case Begin(op) =>
      if Plan(s.rules, op).Some? {
        PlanIsNamed(s.rules, op);
        if s.kv.Some? {
          PlanAgrees(s.rules, s.kv.value, op);
        }
      }
    case Persist(_) =>
    case Finish =>
    case Crash =>
    case SetHandle(_, _) => TouchingKeepsPersistInv(s, Next(s, e));
    case MarkError(_) => TouchingKeepsPersistInv(s, Next(s, e));
  }

  lemma {:induction false} TouchingKeepsPersistInv(s: State, t: State)
    requires PersistInv(s) && t.phase == s.phase && t.kv == s.kv && Touched(s.rules, t.rules)
    ensures PersistInv(t)
  {
    TouchingNamed(s.rules, t.rules);
    if !s.phase.Idle? {
      CommitTouched(s.rules, t.rules, s.phase.op, s.phase.write);
      TouchingNamed(Commit(s.rules, s.phase.op, s.phase.write), Commit(t.rules, s.phase.op, s.phase.write));
    }
    if s.kv.Some? {
      if !s.phase.Written? {
        TouchingAgrees(s.rules, t.rules, s.kv.value);
      }
      if s.phase.Begun? {
        TouchingAgrees(Commit(s.rules, s.phase.op, s.phase.write), Commit(t.rules, s.phase.op, s.phase.write),
                       Apply(s.kv.value, s.phase.write));
      }
      if s.phase.Written? {
        TouchingAgrees(Commit(s.rules, s.phase.op, s.phase.write), Commit(t.rules, s.phase.op, s.phase.write),
                       s.kv.value);
      }
    }
  }

  lemma {:induction false} RunsKeepPersistInv(s: State, events: seq<Event>)
    requires PersistInv(s) && Runs(s, events)
    ensures PersistInv(After(s, events))
    decreases |events|
  {
    if events != [] {
      NextKeepsPersistInv(s, events[0]);
      RunsKeepPersistInv(Next(s, events[0]), events[1..]);
    }
  }

  lemma {:induction false} InitialPersistInv(s: State)
    requires Initial(s)
    ensures PersistInv(s)
  {
  }

  /** Definitions and statuses, without handles: what a user sees and what a restart restores. */
  function Catalog(rules: Rules): map<string, (Def, string)> {
    map id | id in rules :: (rules[id].def, rules[id].status)
  }

  predicate AllSettled(rules: Rules) {
    forall id | id in rules :: Settled(rules[id].status)
  }

  lemma {:induction false} AgreesIffLoads(rules: Rules, kv: Store)
    requires Agrees(rules, kv)
    ensures Catalog(Load(kv)) == Catalog(rules) <==> AllSettled(rules)
  {
    var c, d := Catalog(Load(kv)), Catalog(rules);
    if c == d {
      forall id | id in rules
        ensures Settled(rules[id].status)
      {
        assert c[id] == d[id];
        assert c[id].1 == Normal(kv[id].status);
      }
    }
    if AllSettled(rules) {
      assert c.Keys == d.Keys;
    }
  }

  /**
    In every reachable state with no operation under way, after successes and failures alike,
    a restart would restore exactly the rules in memory if and only if no status is "error",
    which only the engine's own status writes can bring about.
   */
  lemma {:induction false} StoreMatchesMemory(s: State, events: seq<Event>)
    requires Initial(s) && s.kv.Some? && Runs(s, events)
    ensures var t := After(s, events);
            t.kv.Some? && (t.phase.Idle? ==>
                             (Catalog(Load(t.kv.value)) == Catalog(t.rules) <==> AllSettled(t.rules)))
            && (NoErrors(events) ==> AllSettled(t.rules))
  {
    if NoErrors(events) {
      RunsStaySettled(s, events);
    }
    InitialPersistInv(s);
    RunsKeepPersistInv(s, events);
    StoreStays(s, events);
    var t := After(s, events);
    if t.phase.Idle? {
      AgreesIffLoads(t.rules, t.kv.value);
    }
  }

  lemma {:induction false} StoreStays(s: State, events: seq<Event>)
    requires Runs(s, events)
    ensures After(s, events).kv.Some? <==> s.kv.Some?
    decreases |events|
  {
    if events != [] {
      StoreStays(Next(s, events[0]), events[1..]);
    }
  }

  // ----- Statuses -----

  predicate NoErrors(events: seq<Event>) {
    forall i | 0 <= i < |events| :: !events[i].MarkError?
  }

  lemma {:induction false} RunsStaySettled(s: State, events: seq<Event>)
    requires AllSettled(s.rules) && Runs(s, events) && NoErrors(events)
    ensures AllSettled(After(s, events).rules)
    decreases |events|
  {
    if events != [] {
      assert !events[0].MarkError?;
      RunsStaySettled(Next(s, events[0]), events[1..]);
    }
  }

  // ----- Crashes -----

  /** Steps that can happen while one operation holds the lock. */
  predicate Inside(events: seq<Event>) {
    forall i | 0 <= i < |events| :: events[i].Persist? || events[i].SetHandle? || events[i].MarkError?
  }

  /** While an operation runs, the store is as it was or has the operation's write, nothing else. */
  lemma {:induction false} InsideTheStore(s: State, events: seq<Event>, w: Write, kv: Store)
    requires Runs(s, events) && Inside(events) && s.kv == Some(kv)
    requires s.phase.Begun? ==> s.phase.write == w
    ensures var t := After(s, events);
            && (s.phase.Begun? ==> t.kv == Some(if t.phase.Written? then Apply(kv, w) else kv))
            && (s.phase.Written? ==> t.phase.Written? && t.kv == s.kv)
            && (s.phase.Idle? ==> t.phase.Idle? && t.kv == s.kv)
    decreases |events|
  {
    if events != [] {
      var t := Next(s, events[0]);
      assert events[0].Persist? || events[0].SetHandle? || events[0].MarkError?;
      InsideTheStore(t, events[1..], w, t.kv.value);
    }
  }

  /** The same rules with the same definitions, and the same statuses but for "error". */
  predicate Restores(loaded: Rules, rules: Rules) {
    && loaded.Keys == rules.Keys
    && forall id | id in rules ::
         loaded[id].def == rules[id].def && (Settled(rules[id].status) ==> loaded[id].status == rules[id].status)
  }

  lemma {:induction false} AgreesRestores(rules: Rules, kv: Store)
    requires Agrees(rules, kv)
    ensures Restores(Load(kv), rules)
  {
  }

  /**
    From every reachable state, a crash anywhere inside an operation, whatever tasks were
    attached and statuses overwritten meanwhile, followed by a reload restores the rules from
    after the operation once its write is in the store, and the ones from before it until then
    and when the write failed; exactly those if no status was "error".
   */
  lemma {:induction false} CrashIsAtomic(start: State, history: seq<Event>, op: Op, events: seq<Event>)
    requires Initial(start) && start.kv.Some? && Runs(start, history)
    requires var s := After(start, history);
             && s.phase.Idle? && Plan(s.rules, op).Some?
             && Runs(Next(s, Begin(op)), events) && Inside(events)
    ensures var s := After(start, history);
            var t := After(Next(s, Begin(op)), events);
            var rules := if t.phase.Written? then Commit(s.rules, op, Plan(s.rules, op).value) else s.rules;
            && Restores(Next(t, Crash).rules, rules)
            && (Catalog(Next(t, Crash).rules) == Catalog(rules) <==> AllSettled(rules))
  {
    var s := After(start, history);
    var w := Plan(s.rules, op).value;
    InitialPersistInv(start);
    RunsKeepPersistInv(start, history);
    StoreStays(start, history);
    PlanAgrees(s.rules, s.kv.value, op);
    InsideTheStore(Next(s, Begin(op)), events, w, s.kv.value);
    var t := After(Next(s, Begin(op)), events);
    var rules := if t.phase.Written? then Commit(s.rules, op, w) else s.rules;
    AgreesRestores(rules, t.kv.value);
    AgreesIffLoads(rules, t.kv.value);
  }

  lemma {:induction false} CommitSettles(rules: Rules, op: Op, w: Write)
    requires AllSettled(rules)
    ensures AllSettled(Commit(rules, op, w))
  {
  }

  // ----- Tasks -----

  /** A task that was handed over and not aborted. */
  predicate Live(s: State, t: nat) {
    t in s.owner && t !in s.aborted
  }

  /** Live tasks are exactly the handles, each held by the rule it was handed for. */
  ghost predicate TaskInv(s: State) {
    && s.aborted <= s.owner.Keys
    && (!s.phase.Idle? && s.phase.op.Create? ==> s.phase.op.def.id !in s.rules)
    && (forall t | Live(s, t) :: s.owner[t] in s.rules && s.rules[s.owner[t]].handle == Some(t))
    && (forall id | id in s.rules && s.rules[id].handle.Some? ::
          Live(s, s.rules[id].handle.value) && s.owner[s.rules[id].handle.value] == id
          && s.rules[id].status != "stopped")
  }

  /**
    The one step that loses a task: `set_rule_handle` on a rule that is not running drops the
    handle it holds without aborting it.
   */
  predicate Orphans(s: State, e: Event) {
    e.SetHandle? && e.id in s.rules && s.rules[e.id].status != "running" && s.rules[e.id].handle.Some?
  }

  /** A step keeps handles and live tasks together exactly when it is not that one. */
  lemma {:induction false} StepKeepsTasksIff(s: State, e: Event)
    requires TaskInv(s) && Enabled(s, e)
    ensures TaskInv(Next(s, e)) <==> !Orphans(s, e)
  {
    var n := Next(s, e);
    match e
    case Begin(_) =>
    case Persist(_) =>
    case Crash =>
    case MarkError(_) =>
    case Finish => FinishKeepsTasks(s);
    case SetHandle(id, t) =>
      if Orphans(s, e) {
        var u := s.rules[id].handle.value;
        assert Live(s, u);
        assert Live(n, u) && n.owner[u] == id && n.rules[id].handle == None;
      } else {
        SetHandleKeepsTasks(s, id, t);
      }
  }

  lemma {:induction false} FinishKeepsTasks(s: State)
    requires TaskInv(s) && s.phase.Written?
    ensures TaskInv(Next(s, Finish))
  {
    var n := Next(s, Finish);
    var id := Target(s.phase.op);
    var gone := Aborts(s.rules, s.phase.op, s.phase.write);
    if id in s.rules && s.rules[id].handle.Some? {
      assert Live(s, s.rules[id].handle.value);
    }
    forall t | Live(n, t)
      ensures n.owner[t] in n.rules && n.rules[n.owner[t]].handle == Some(t)
    {
      assert Live(s, t) && t !in gone;
    }
  }

  lemma {:induction false} SetHandleKeepsTasks(s: State, id: string, t: nat)
    requires TaskInv(s) && t !in s.owner && !Orphans(s, SetHandle(id, t))
    ensures TaskInv(Next(s, SetHandle(id, t)))
  {
    var n := Next(s, SetHandle(id, t));
    forall u | Live(n, u)
      ensures n.owner[u] in n.rules && n.rules[n.owner[u]].handle == Some(u)
    {
      if u != t {
        assert Live(s, u);
      }
    }
    forall k | k in n.rules && n.rules[k].handle.Some?
      ensures Live(n, n.rules[k].handle.value)
              && n.owner[n.rules[k].handle.value] == k && n.rules[k].status != "stopped"
    {
      if k != id {
        assert Live(s, s.rules[k].handle.value);
      }
    }
  }

  /** The rules' statuses and the running flag never disagree with the handles in an error-free run. */
  lemma {:induction false} RunsKeepTasks(s: State, events: seq<Event>)
    requires TaskInv(s) && AllSettled(s.rules) && Runs(s, events) && NoErrors(events)
    ensures TaskInv(After(s, events))
    decreases |events|
  {
    if events != [] {
      assert !events[0].MarkError?;
      StepKeepsTasksIff(s, events[0]);
      RunsStaySettled(s, events[..1]);
      assert Next(s, events[0]) == After(s, events[..1]);
      RunsKeepTasks(Next(s, events[0]), events[1..]);
    }
  }

  /** A live task that no rule holds. */
  ghost predicate Orphan(s: State, t: nat) {
    Live(s, t) && forall id | id in s.rules :: s.rules[id].handle != Some(t)
  }

  lemma {:induction false} OrphansStay(s: State, e: Event, t: nat)
    requires Enabled(s, e) && Orphan(s, t) && !e.Crash?
    ensures Orphan(Next(s, e), t)
  {
  }

  lemma {:induction false} OrphaningStep(s: State, e: Event) returns (t: nat)
    requires TaskInv(s) && Enabled(s, e) && Orphans(s, e)
    ensures Orphan(Next(s, e), t)
  {
    t := s.rules[e.id].handle.value;
    assert Live(s, t) && s.owner[t] == e.id;
  }

  predicate NoCrash(events: seq<Event>) {
    forall i | 0 <= i < |events| :: !events[i].Crash?
  }

  /** Some step loses a task, and no crash comes after it. */
  predicate Loses(s: State, events: seq<Event>)
    requires Runs(s, events)
    decreases |events|
  {
    events != []
    && ((Orphans(s, events[0]) && NoCrash(events[1..])) || Loses(Next(s, events[0]), events[1..]))
  }

  lemma {:induction false} NoCrashStep(events: seq<Event>)
    requires events != []
    ensures NoCrash(events) <==> !events[0].Crash? && NoCrash(events[1..])
  {
    if !events[0].Crash? && NoCrash(events[1..]) {
      forall i | 0 <= i < |events|
        ensures !events[i].Crash?
      {
        if i > 0 {
          assert events[i] == events[1..][i - 1];
        }
      }
    }
  }

  /** From a state with a lost task, only a crash brings tasks and handles together again. */
  lemma {:induction false} RunsWithOrphan(s: State, events: seq<Event>, t: nat)
    requires Orphan(s, t) && Runs(s, events)
    ensures TaskInv(After(s, events)) <==> !(NoCrash(events) || Loses(s, events))
    decreases |events|
  {
    if events != [] {
      NoCrashStep(events);
      if events[0].Crash? {
        RunsKeepTasksIff(Next(s, events[0]), events[1..]);
      } else {
        OrphansStay(s, events[0], t);
        RunsWithOrphan(Next(s, events[0]), events[1..], t);
      }
    } else {
      assert s.owner[t] in s.rules ==> s.rules[s.owner[t]].handle != Some(t);
    }
  }

  /**
    Over every run, the engine's status writes included: live tasks are exactly the handles in
    the end if and only if no step since the last crash attached a handle to a rule that held
    one without running.
   */
  lemma {:induction false} RunsKeepTasksIff(s: State, events: seq<Event>)
    requires TaskInv(s) && Runs(s, events)
    ensures TaskInv(After(s, events)) <==> !Loses(s, events)
    decreases |events|
  {
    if events != [] {
      StepKeepsTasksIff(s, events[0]);
      if Orphans(s, events[0]) {
        var t := OrphaningStep(s, events[0]);
        RunsWithOrphan(Next(s, events[0]), events[1..], t);
      } else {
        RunsKeepTasksIff(Next(s, events[0]), events[1..]);
      }
    }
  }

  /**
    Over every interleaving: a task handed over is aborted, or it is the handle of a present,
    running rule; a rule that is absent or stopped has no live task, and none has two.
   */
  lemma {:induction false} TaskSafety(s: State, events: seq<Event>)
    requires Initial(s) && Runs(s, events) && NoErrors(events)
    ensures var n := After(s, events);
            && (forall t | t in n.owner :: t in n.aborted || (n.owner[t] in n.rules
                                                              && n.rules[n.owner[t]].status == "running"
                                                              && n.rules[n.owner[t]].handle == Some(t)))
            && (forall t, u | Live(n, t) && Live(n, u) && n.owner[t] == n.owner[u] :: t == u)
  {
    RunsKeepTasks(s, events);
    RunsStaySettled(s, events);
    var n := After(s, events);
    forall t | t in n.owner
      ensures t in n.aborted || (n.owner[t] in n.rules && n.rules[n.owner[t]].status == "running"
                                 && n.rules[n.owner[t]].handle == Some(t))
    {
      if t !in n.aborted {
        assert Live(n, t);
      }
    }
  }

  // ----- Which task a rule keeps -----

  /** Only tasks that were handed over are aborted or held; so it is in every reachable state. */
  predicate Known(s: State) {
    && s.aborted <= s.owner.Keys
    && forall id | id in s.rules && s.rules[id].handle.Some? :: s.rules[id].handle.value in s.owner
  }

  lemma {:induction false} RunsKeepKnown(s: State, events: seq<Event>)
    requires Known(s) && Runs(s, events)
    ensures Known(After(s, events))
    decreases |events|
  {
    if events != [] {
      RunsKeepKnown(Next(s, events[0]), events[1..]);
    }
  }

  /**
    A running rule takes the task it is given, which is live from then on, and the one it held
    before is aborted. A rule that is absent or not running refuses it. Nothing else changes.
   */
  lemma {:induction false} AttachedTask(s: State, id: string, t: nat)
    requires Known(s) && t !in s.owner
    ensures var n := Next(s, SetHandle(id, t));
            && n.rules.Keys == s.rules.Keys && n.kv == s.kv && n.phase == s.phase
            && n.owner == s.owner[t := id]
            && (forall k | k in s.rules && k != id :: n.rules[k] == s.rules[k])
            && (id in s.rules ==> n.rules[id].def == s.rules[id].def && n.rules[id].status == s.rules[id].status)
            && (id in s.rules && s.rules[id].status == "running" ==>
                  && n.rules[id].handle == Some(t) && Live(n, t)
                  && forall u :: u in n.aborted <==> u in s.aborted || s.rules[id].handle == Some(u))
            && (id !in s.rules || s.rules[id].status != "running" ==>
                  && (id in s.rules ==> n.rules[id].handle == None)
                  && forall u :: u in n.aborted <==> u in s.aborted || u == t)
  {
  }

  /** The task last handed over for a rule since the last crash; `before` is the one from earlier steps. */
  function LastHanded(events: seq<Event>, id: string, before: Option<nat>): Option<nat>
    decreases |events|
  {
    if events == [] then before
    else
      var e := events[0];
      LastHanded(events[1..], id,
                 if e.SetHandle? && e.id == id then Some(e.task) else if e.Crash? then None else before)
  }

  lemma {:induction false} HandlesAreLast(s: State, events: seq<Event>, id: string, before: Option<nat>)
    requires Runs(s, events) && (id in s.rules && s.rules[id].handle.Some? ==> s.rules[id].handle == before)
    ensures var n := After(s, events);
            id in n.rules && n.rules[id].handle.Some? ==> n.rules[id].handle == LastHanded(events, id, before)
    decreases |events|
  {
    if events != [] {
      var e := events[0];
      HandlesAreLast(Next(s, e), events[1..], id,
                     if e.SetHandle? && e.id == id then Some(e.task) else if e.Crash? then None else before);
    }
  }

  /**
    Over every run, the engine's status writes included: a rule holds no task but the last one
    handed over for it, and if no task was lost the live task of a rule is that one.
   */
  lemma {:induction false} LiveTaskIsLast(s: State, events: seq<Event>, id: string)
    requires Initial(s) && Runs(s, events)
    ensures var n := After(s, events);
            && Known(n)
            && (id in n.rules && n.rules[id].handle.Some? ==> n.rules[id].handle == LastHanded(events, id, None))
            && (!Loses(s, events) ==>
                  forall t | Live(n, t) && n.owner[t] == id :: LastHanded(events, id, None) == Some(t))
  {
    RunsKeepKnown(s, events);
    HandlesAreLast(s, events, id, None);
    if !Loses(s, events) {
      RunsKeepTasksIff(s, events);
      var n := After(s, events);
      forall t | Live(n, t) && n.owner[t] == id
        ensures LastHanded(events, id, None) == Some(t)
      {
        assert n.rules[id].handle == Some(t);
      }
    }
  }

  /** The engine's "error" status makes the losing step reachable: the first task runs on, held by nobody. */
  lemma {:induction false} ErrorStatusLosesATask(def: Def, t: nat, u: nat)
    requires t != u
    ensures var events := [Begin(Create(def)), Persist(true), Finish, SetHandle(def.id, t),
                           MarkError(def.id), SetHandle(def.id, u)];
            var s := State(map[], None, Idle, map[], {});
            && Initial(s) && Runs(s, events)
            && Live(After(s, events), t) && After(s, events).rules == map[def.id := Rule(def, "error", None)]
  {
    var s := State(map[], None, Idle, map[], {});
    var w := Put(def.id, Stored(def, "running"));
    var s1 := Next(s, Begin(Create(def)));
    assert s1 == s.(phase := Begun(Create(def), w));
    var s2 := Next(s1, Persist(true));
    var s3 := Next(s2, Finish);
    assert s3.rules == map[def.id := Rule(def, "running", None)];
    var s4 := Next(s3, SetHandle(def.id, t));
    assert s4.rules[def.id] == Rule(def, "running", Some(t));
    var s5 := Next(s4, MarkError(def.id));
    var e6 := SetHandle(def.id, u);
    var s6 := Next(s5, e6);
    RunOne(s5, e6, []);
    RunOne(s4, MarkError(def.id), [e6]);
    RunOne(s3, SetHandle(def.id, t), [MarkError(def.id), e6]);
    RunOne(s2, Finish, [SetHandle(def.id, t), MarkError(def.id), e6]);
    RunOne(s1, Persist(true), [Finish, SetHandle(def.id, t), MarkError(def.id), e6]);
    RunOne(s, Begin(Create(def)), [Persist(true), Finish, SetHandle(def.id, t), MarkError(def.id), e6]);
  }

  lemma {:induction false} RunOne(s: State, e: Event, events: seq<Event>)
    requires Enabled(s, e) && Runs(Next(s, e), events)
    ensures Runs(s, [e] + events) && After(s, [e] + events) == After(Next(s, e), events)
  {
    ConcatSplits([e], events);
  }

  // ----- The manager -----

  /** An operation from taking the lock to releasing it. */
  function Perform(s: State, op: Op, ok: bool): State
    requires s.phase.Idle? && (s.kv.None? ==> ok)
  {
    var begun := Next(s, Begin(op));
    if begun.phase.Idle? then begun
    else
      var written := Next(begun, Persist(ok));
      if ok then Next(written, Finish) else written
  }

  /** What the user asked of the rule, in terms of its definition and status before. */
  predicate Requested(op: Op, before: Option<(Def, string)>, after: Option<(Def, string)>) {
    match op
    case Create(def) => after == Some((def, "running"))
    case Delete(_) => after == None
    case Update(def) => before.Some? && after == Some((def, before.value.1))
    case Retag(_, tags) => before.Some? && after == Some((before.value.0.(tags := tags), before.value.1))
    case Start(_) => before.Some? && after == Some((before.value.0, "running"))
    case Restart(_) => before.Some? && after == Some((before.value.0, "running"))
    case Stop(_) => before.Some? && after == Some((before.value.0, "stopped"))
    case Halt(_) => before.Some? && after == Some((before.value.0, "stopped"))
  }

  function Lookup(catalog: map<string, (Def, string)>, id: string): Option<(Def, string)> {
    if id in catalog then Some(catalog[id]) else None
  }

  /**
    A completed operation does to its rule what was asked, in memory and in what a restart
    would load, touches no other rule, and leaves no live task for a rule it stopped, halted,
    restarted, deleted or, if running, updated. A refused or failed one changes nothing.
   */
  lemma {:induction false} OperationsMean(s: State, op: Op, ok: bool)
    requires s.phase.Idle? && PersistInv(s) && TaskInv(s) && AllSettled(s.rules) && (s.kv.None? ==> ok)
    ensures var n := Perform(s, op, ok);
            var id := Target(op);
            && ((op.Create? <==> id in s.rules) || !ok ==> n == s)
            && (!(op.Create? <==> id in s.rules) && ok ==>
                  && Requested(op, Lookup(Catalog(s.rules), id), Lookup(Catalog(n.rules), id))
                  && (forall k | k != id :: Lookup(Catalog(n.rules), k) == Lookup(Catalog(s.rules), k))
                  && (n.kv.Some? ==> Catalog(Load(n.kv.value)) == Catalog(n.rules))
                  && (forall t | Live(n, t) && n.owner[t] == id ::
                        op.Start? || op.Retag? || (op.Update? && s.rules[id].status != "running")))
  {
    if !(op.Create? <==> Target(op) in s.rules) {
      var begun := Next(s, Begin(op));
      NextKeepsPersistInv(s, Begin(op));
      StepKeepsTasksIff(s, Begin(op));
      var written := Next(begun, Persist(ok));
      NextKeepsPersistInv(begun, Persist(ok));
      StepKeepsTasksIff(begun, Persist(ok));
      if ok {
        var n := Next(written, Finish);
        NextKeepsPersistInv(written, Finish);
        StepKeepsTasksIff(written, Finish);
        CommitSettles(s.rules, op, Plan(s.rules, op).value);
        if n.kv.Some? {
          AgreesIffLoads(n.rules, n.kv.value);
        }
        CommitMeans(s.rules, op);
      }
    }
  }

  lemma {:induction false} CommitMeans(rules: Rules, op: Op)
    requires op.Create? <==> Target(op) !in rules
    requires Plan(rules, op).Some?
    ensures var after := Commit(rules, op, Plan(rules, op).value);
            && Requested(op, Lookup(Catalog(rules), Target(op)), Lookup(Catalog(after), Target(op)))
            && (forall k | k != Target(op) :: Lookup(Catalog(after), k) == Lookup(Catalog(rules), k))
  {
  }

  datatype Outcome = Success | Refused | StoreFailed

  function OutcomeOf(rules: Rules, op: Op, ok: bool): Outcome {
    if Plan(rules, op).None? then Refused else if ok then Success else StoreFailed
  }

  /** Operations that end the task of their rule. */
  predicate EndsTask(op: Op, status: string) {
    op.Stop? || op.Halt? || op.Restart? || op.Delete? || (op.Update? && status == "running")
  }

  /** What is stored for a rule after an operation on it. */
  function StoredAfter(op: Op, before: Option<(Def, string)>): Option<Entry>
    requires before.None? ==> op.Create?
  {
    match op
    case Create(def) => Some(Stored(def, "running"))
    case Delete(_) => None
    case Update(def) => Some(Stored(def, if before.value.1 == "running" then "running" else "stopped"))
    case Retag(_, tags) => Some(Stored(before.value.0.(tags := tags), before.value.1))
    case Start(_) => Some(Stored(before.value.0, "running"))
    case Restart(_) => Some(Stored(before.value.0, "running"))
    case Stop(_) => Some(Stored(before.value.0, "stopped"))
    case Halt(_) => Some(Stored(before.value.0, "stopped"))
  }

  /** An operation is refused if its rule is there already, or is not there. */
  predicate IsRefused(s: State, op: Op) {
    if op.Create? then Target(op) in s.rules else Target(op) !in s.rules
  }

  /** A refused operation and one whose write fails say so and change nothing. */
  lemma {:induction false} RefusedChangesNothing(s: State, op: Op, ok: bool)
    requires s.phase.Idle? && (s.kv.None? ==> ok)
    ensures OutcomeOf(s.rules, op, ok) == if IsRefused(s, op) then Refused else if ok then Success else StoreFailed
    ensures IsRefused(s, op) || !ok ==> Perform(s, op, ok) == s
  {
  }

  /**
    From every state between operations, whatever its statuses and handles: what a completed
    operation leaves in memory and in the store, and that other rules stay as they are.
   */
  lemma {:induction false} OperationEffects(s: State, op: Op)
    requires s.phase.Idle? && !IsRefused(s, op)
    ensures var (n, id, before) := (Perform(s, op, true), Target(op), Lookup(Catalog(s.rules), Target(op)));
            && n.owner == s.owner && n.phase.Idle? && n.kv.Some? == s.kv.Some?
            && Requested(op, before, Lookup(Catalog(n.rules), id))
            && (forall k | k != id :: (k in n.rules <==> k in s.rules) && (k in s.rules ==> n.rules[k] == s.rules[k]))
            && (s.kv.Some? ==>
                  var e := StoredAfter(op, before);
                  n.kv.value == if e.None? then s.kv.value - {id} else s.kv.value[id := e.value])
  {
    CommitMeans(s.rules, op);
  }

  /** The task of the rule is aborted and let go if the operation ends it, and kept otherwise; no other is touched. */
  lemma {:induction false} OperationTasks(s: State, op: Op)
    requires s.phase.Idle? && !IsRefused(s, op)
    ensures var (n, id) := (Perform(s, op, true), Target(op));
            var ends := id in s.rules && EndsTask(op, s.rules[id].status);
            && (forall t :: t in n.aborted <==> t in s.aborted || (ends && s.rules[id].handle == Some(t)))
            && (id in n.rules ==> n.rules[id].handle == if op.Create? || ends then None else s.rules[id].handle)
  {
  }

  class RuleManager {
    var rules: Rules
    var kv: Option<Store>
    ghost var owner: map<nat, string>
    ghost var aborted: set<nat>

    ghost function Snapshot(): State
      reads this
    {
      State(rules, kv, Idle, owner, aborted)
    }

    constructor (kv: Option<Store>)
      ensures Snapshot() == State(map[], kv, Idle, map[], {})
    {
      this.rules, this.kv, this.owner, this.aborted := map[], kv, map[], {};
    }

    /** `persist_rule`: succeeds without a store. `ok` is what the store answers. */
    method PersistRule(id: string, def: Def, status: string, ok: bool) returns (r: bool)
      requires kv.None? ==> ok
      modifies this`kv
      ensures r == ok
      ensures kv == if ok && old(kv).Some? then Some(Apply(old(kv).value, Put(id, Stored(def, status)))) else old(kv)
    {
      if kv.Some? && ok {
        kv := Some(kv.value[id := Stored(def, status)]);
      }
      r := ok;
    }

    /** `abort` on a handle that was taken out of a rule. */
    ghost method Abort(handle: Option<nat>)
      modifies this`aborted
      ensures aborted == old(aborted) + (if handle.Some? then {handle.value} else {})
    {
      if handle.Some? {
        aborted := aborted + {handle.value};
      }
    }

    method CreateRule(def: Def, ok: bool) returns (r: Outcome)
      requires kv.None? ==> ok
      modifies this
      ensures r == OutcomeOf(old(rules), Create(def), ok)
      ensures Snapshot() == Perform(old(Snapshot()), Create(def), ok)
    {
      if def.id in rules { return Refused; }
      var done := PersistRule(def.id, def, "running", ok);
      if !done { return StoreFailed; }
      rules := rules[def.id := Rule(def, "running", None)];
      r := Success;
    }

    method UpdateRule(def: Def, ok: bool) returns (r: Outcome, wasRunning: bool)
      requires kv.None? ==> ok
      modifies this
      ensures r == OutcomeOf(old(rules), Update(def), ok)
      ensures r.Success? ==> wasRunning == (old(rules)[def.id].status == "running")
      ensures Snapshot() == Perform(old(Snapshot()), Update(def), ok)
    {
      wasRunning := false;
      if def.id !in rules { return Refused, false; }
      wasRunning := rules[def.id].status == "running";
      var done := PersistRule(def.id, def, if wasRunning then "running" else "stopped", ok);
      if !done { return StoreFailed, wasRunning; }
      var rule := rules[def.id].(def := def);
      if wasRunning {
        Abort(rule.handle);
        rule := rule.(handle := None);
      }
      rules := rules[def.id := rule];
      r := Success;
    }

    /** `update_rule_tags`; `tags` is what the caller's function, sorting and deduplication give. */
    method UpdateRuleTags(id: string, tags: seq<string>, ok: bool) returns (r: Outcome)
      requires kv.None? ==> ok
      modifies this
      ensures r == OutcomeOf(old(rules), Retag(id, tags), ok)
      ensures Snapshot() == Perform(old(Snapshot()), Retag(id, tags), ok)
    {
      if id !in rules { return Refused; }
      var def := rules[id].def.(tags := tags);
      var done := PersistRule(id, def, rules[id].status, ok);
      if !done { return StoreFailed; }
      rules := rules[id := rules[id].(def := rules[id].def.(tags := tags))];
      r := Success;
    }

    method HaltRuleWithError(id: string, ok: bool) returns (r: Outcome)
      requires kv.None? ==> ok
      modifies this
      ensures r == OutcomeOf(old(rules), Halt(id), ok)
      ensures Snapshot() == Perform(old(Snapshot()), Halt(id), ok)
    {
      if id !in rules { return Refused; }
      var done := PersistRule(id, rules[id].def, "stopped", ok);
      if !done { return StoreFailed; }
      Abort(rules[id].handle);
      rules := rules[id := rules[id].(handle := None, status := "stopped")];
      r := Success;
    }

    /** Takes no lock; the handle is consumed. */
    method SetRuleHandle(id: string, task: nat)
      requires task !in owner
      modifies this
      ensures Snapshot() == Next(old(Snapshot()), SetHandle(id, task))
    {
      owner := owner[task := id];
      if id in rules {
        if rules[id].status != "running" {
          Abort(Some(task));
          rules := rules[id := rules[id].(handle := None)];
          return;
        }
        Abort(rules[id].handle);
        rules := rules[id := rules[id].(handle := Some(task))];
      } else {
        Abort(Some(task));
      }
    }

    method StartRule(id: string, ok: bool) returns (r: Outcome)
      requires kv.None? ==> ok
      modifies this
      ensures r == OutcomeOf(old(rules), Start(id), ok)
      ensures Snapshot() == Perform(old(Snapshot()), Start(id), ok)
    {
      if id !in rules { return Refused; }
      var done := PersistRule(id, rules[id].def, "running", ok);
      if !done { return StoreFailed; }
      rules := rules[id := rules[id].(status := "running")];
      r := Success;
    }

    method StopRule(id: string, ok: bool) returns (r: Outcome)
      requires kv.None? ==> ok
      modifies this
      ensures r == OutcomeOf(old(rules), Stop(id), ok)
      ensures Snapshot() == Perform(old(Snapshot()), Stop(id), ok)
    {
      if id !in rules { return Refused; }
      var done := PersistRule(id, rules[id].def, "stopped", ok);
      if !done { return StoreFailed; }
      Abort(rules[id].handle);
      rules := rules[id := rules[id].(handle := None, status := "stopped")];
      r := Success;
    }

    method RestartRule(id: string, ok: bool) returns (r: Outcome)
      requires kv.None? ==> ok
      modifies this
      ensures r == OutcomeOf(old(rules), Restart(id), ok)
      ensures Snapshot() == Perform(old(Snapshot()), Restart(id), ok)
    {
      if id !in rules { return Refused; }
      var done := PersistRule(id, rules[id].def, "running", ok);
      if !done { return StoreFailed; }
      Abort(rules[id].handle);
      rules := rules[id := rules[id].(handle := None, status := "running")];
      r := Success;
    }

    method DeleteRule(id: string, ok: bool) returns (r: Outcome)
      requires kv.None? ==> ok
      modifies this
      ensures r == OutcomeOf(old(rules), Delete(id), ok)
      ensures Snapshot() == Perform(old(Snapshot()), Delete(id), ok)
    {
      if id !in rules { return Refused; }
      if !ok { return StoreFailed; }
      if kv.Some? {
        kv := Some(kv.value - {id});
      }
      Abort(rules[id].handle);
      rules := rules - {id};
      r := Success;
    }

    /** `load_from_kv` over the listing of the store, at start-up. */
    method LoadFromKv(entries: seq<(string, Entry)>)
      modifies this`rules
      ensures rules == LoadAll(entries, old(rules))
      ensures old(rules) == map[] && kv.Some? && WellKeyed(kv.value) && Lists(entries, kv.value) ==>
                rules == Load(kv.value)
    {
      var rest := entries;
      while rest != []
        invariant LoadAll(entries, old(rules)) == LoadAll(rest, rules)
        decreases |rest|
      {
        var e := rest[0].1;
        if e.Stored? {
          var status := if e.status == "running" then "running" else "stopped";
          rules := rules[e.def.id := Rule(e.def, status, None)];
        }
        rest := rest[1..];
      }
      if old(rules) == map[] && kv.Some? && WellKeyed(kv.value) && Lists(entries, kv.value) {
        LoadAllIsLoad(entries, kv.value);
      }
    }
  }
}
