/**
 * The automation reconciler: the cron tasks that live, and the entries that own them.
 */
module Scheduler {
  import opened Json

  datatype Mode = Implement | Report | Findings

  datatype Config = Config(
    name: string, schedule: string, mode: Mode, prompt: string, enabled: bool, repoUrl: Option<string>)

  function ModeText(m: Mode): string {
    match m case Implement => "implement" case Report => "report" case Findings => "findings"
  }

  function ConfigDoc(c: Config): Doc {
    DObj([Field("name", DStr(c.name)), Field("schedule", DStr(c.schedule)),
          Field("mode", DStr(ModeText(c.mode))), Field("prompt", DStr(c.prompt)),
          Field("enabled", DBool(c.enabled)),
          Field("repoUrl", if c.repoUrl.Some? then DStr(c.repoUrl.value) else DNull)])
  }

  /** The text that two configurations are compared by. */
  function Signature(c: Config): string {
    Print(ConfigDoc(c))
  }

  /** Equal signatures mean equal configurations. */
  lemma SignatureInjective(a: Config, b: Config)
    requires Signature(a) == Signature(b)
    ensures a == b
  {
    PrintInjective(ConfigDoc(a), ConfigDoc(b));
    var fa, fb := ConfigDoc(a).fields, ConfigDoc(b).fields;
    assert forall i :: 0 <= i < 6 ==> fa[i].value == fb[i].value;
    assert fa[0].value == fb[0].value && fa[1].value == fb[1].value && fa[2].value == fb[2].value;
    assert fa[3].value == fb[3].value && fa[4].value == fb[4].value && fa[5].value == fb[5].value;
    assert ModeText(a.mode)[0] == ModeText(b.mode)[0];
  }

  type TaskId = nat

  datatype Entry = Entry(
    config: Config, signature: string, task: Option<TaskId>, valid: bool, lastError: Option<string>)

  function InvalidMessage(c: Config): string {
    "Invalid cron expression for automation " + c.name + ": " + c.schedule
  }

  /**
   * `live` maps each scheduled task that was not destroyed to the configuration it runs;
   * `listeners` counts the callbacks subscribed to the configuration store, `held` says
   * whether the scheduler keeps the handle that unsubscribes the last of them.
   */
  datatype State = State(
    entries: map<string, Entry>, live: map<TaskId, Config>, nextTask: TaskId, listeners: nat, held: bool)

  const EMPTY: State := State(map[], map[], 0, 0, false)

  function Names(cs: seq<Config>): set<string> {
    set c | c in cs :: c.name
  }

  function TaskOf(entries: map<string, Entry>, name: string): set<TaskId> {
    if name in entries && entries[name].task.Some? then {entries[name].task.value} else {}
  }

  function TasksOf(entries: map<string, Entry>, names: set<string>): set<TaskId> {
    set name, t | name in names && t in TaskOf(entries, name) :: t
  }

  /** Which schedules node-cron accepts. */
  type Cron = string -> bool

  // What each operation does

  /** These entries go, and their tasks with them. */
  function Without(s: State, gone: set<string>): State {
    s.(entries := map name | name in s.entries && name !in gone :: s.entries[name],
       live := s.live - TasksOf(s.entries, gone))
  }

  function Drop(s: State, names: set<string>): State {
    Without(s, s.entries.Keys - names)
  }

  /** `createEntry`, and its place in the map. */
  function Create(cron: Cron, s: State, c: Config): State {
    if c.enabled && cron(c.schedule) then
      s.(entries := s.entries[c.name := Entry(c, Signature(c), Some(s.nextTask), true, None)],
         live := s.live[s.nextTask := c], nextTask := s.nextTask + 1)
    else s.(entries := s.entries[c.name :=
            Entry(c, Signature(c), None, !c.enabled, if c.enabled then Some(InvalidMessage(c)) else None)])
  }

  function SyncOne(cron: Cron, s: State, c: Config): State {
    if c.name in s.entries && s.entries[c.name].signature == Signature(c) then s
    else Create(cron, s.(live := s.live - TaskOf(s.entries, c.name)), c)
  }

  function SyncAll(cron: Cron, s: State, cs: seq<Config>): State {
    if cs == [] then s else SyncOne(cron, SyncAll(cron, s, cs[..|cs| - 1]), cs[|cs| - 1])
  }

  function Sync(cron: Cron, s: State, cs: seq<Config>): State {
    SyncAll(cron, Drop(s, Names(cs)), cs)
  }

  function SyncTimes(cron: Cron, s: State, cs: seq<Config>, n: nat): State {
    if n == 0 then s else Sync(cron, SyncTimes(cron, s, cs, n - 1), cs)
  }

  function Stopped(s: State): State {
    Without(s, s.entries.Keys).(
      listeners := if s.held && s.listeners > 0 then s.listeners - 1 else s.listeners, held := false)
  }

  datatype Event = Start(configs: seq<Config>) | Change(configs: seq<Config>) | Stop

  /** Every subscribed callback runs when the configuration changes. */
  function Apply(cron: Cron, s: State, e: Event): State {
    match e
    case Start(cs) => Sync(cron, s, cs).(listeners := s.listeners + 1, held := true)
    case Change(cs) => SyncTimes(cron, s, cs, s.listeners)
    case Stop => Stopped(s)
  }

  function Run(cron: Cron, events: seq<Event>): State {
    if events == [] then EMPTY else Apply(cron, Run(cron, events[..|events| - 1]), events[|events| - 1])
  }

  // What every operation keeps

  /** The entry is what its configuration asks for. */
  predicate EntryOk(cron: Cron, name: string, e: Entry) {
    && e.config.name == name && e.signature == Signature(e.config)
    && (e.task.Some? <==> e.config.enabled && cron(e.config.schedule))
    && (e.valid <==> e.config.enabled ==> cron(e.config.schedule))
    && e.lastError == (if e.valid then None else Some(InvalidMessage(e.config)))
  }

  /** Every entry holds a live task that runs its configuration, if it is meant to hold one. */
  predicate EntriesOk(cron: Cron, s: State) {
    forall name <- s.entries ::
      && EntryOk(cron, name, s.entries[name])
      && (s.entries[name].task.Some? ==>
            s.entries[name].task.value in s.live && s.live[s.entries[name].task.value] == s.entries[name].config)
  }

  /** Every live task is held by the entry that bears its configuration's name. */
  predicate TasksOk(s: State) {
    forall t <- s.live ::
      t < s.nextTask && s.live[t].name in s.entries && s.entries[s.live[t].name].task == Some(t)
  }

  predicate Inv(cron: Cron, s: State) {
    EntriesOk(cron, s) && TasksOk(s)
  }

  function HeldTasks(s: State): set<TaskId> {
    set name | name in s.entries && s.entries[name].task.Some? :: s.entries[name].task.value
  }

  /** The live tasks are exactly the held ones, and no two entries hold the same. */
  lemma LiveAreHeld(cron: Cron, s: State)
    requires Inv(cron, s)
    ensures s.live.Keys == HeldTasks(s)
    ensures forall a, b :: a in s.entries && b in s.entries && a != b ==> TaskOf(s.entries, a) !! TaskOf(s.entries, b)
  {
    hide Signature;
    forall t <- s.live ensures t in HeldTasks(s) {
      assert s.entries[s.live[t].name].task == Some(t);
    }
  }

  lemma WithoutInv(cron: Cron, s: State, gone: set<string>)
    requires Inv(cron, s)
    ensures Inv(cron, Without(s, gone))
  {
    hide Signature;
    var s' := Without(s, gone);
    forall t <- s'.live ensures t < s'.nextTask && s'.live[t].name in s'.entries && s'.entries[s'.live[t].name].task == Some(t) {
      assert t in TaskOf(s.entries, s.live[t].name);
    }
  }

  lemma Created(cron: Cron, s: State, c: Config)
    ensures var s' := Create(cron, s, c);
            && c.name in s'.entries && EntryOk(cron, c.name, s'.entries[c.name])
            && s'.entries == s.entries[c.name := s'.entries[c.name]]
            && s'.live == (if s'.entries[c.name].task.Some? then s.live[s.nextTask := c] else s.live)
            && (s'.entries[c.name].task.Some? ==> s'.entries[c.name].task == Some(s.nextTask))
            && s'.entries[c.name].config == c
            && s'.nextTask == s.nextTask + (if s'.entries[c.name].task.Some? then 1 else 0)
            && s'.listeners == s.listeners && s'.held == s.held
  {
    hide Signature, InvalidMessage;
  }

  lemma SyncOneEntries(cron: Cron, s: State, c: Config)
    requires Inv(cron, s)
    ensures EntriesOk(cron, SyncOne(cron, s, c))
  {
    hide EntryOk, Signature, Create;
    var s1 := s.(live := s.live - TaskOf(s.entries, c.name));
    Created(cron, s1, c);
    var s' := Create(cron, s1, c);
    forall name <- s'.entries
      ensures EntryOk(cron, name, s'.entries[name])
      ensures s'.entries[name].task.Some? ==>
                s'.entries[name].task.value in s'.live && s'.live[s'.entries[name].task.value] == s'.entries[name].config
    {
      if name != c.name && s.entries[name].task.Some? {
        NotTaken(cron, s, name, c.name);
      }
    }
  }

  lemma NotTaken(cron: Cron, s: State, name: string, other: string)
    requires Inv(cron, s) && name in s.entries && name != other && s.entries[name].task.Some?
    ensures s.entries[name].task.value !in TaskOf(s.entries, other) && s.entries[name].task.value < s.nextTask
  {
    hide Signature;
    assert EntryOk(cron, name, s.entries[name]);
    assert other in s.entries ==> EntryOk(cron, other, s.entries[other]);
  }

  lemma SyncOneTasks(cron: Cron, s: State, c: Config)
    requires Inv(cron, s)
    ensures TasksOk(SyncOne(cron, s, c))
  {
    hide EntryOk, EntriesOk, Signature, Create;
    var s1 := s.(live := s.live - TaskOf(s.entries, c.name));
    Created(cron, s1, c);
    var s' := Create(cron, s1, c);
    forall t <- s'.live ensures t < s'.nextTask && s'.live[t].name in s'.entries && s'.entries[s'.live[t].name].task == Some(t) {
      if t != s.nextTask {
        assert t in s.live && s.entries[s.live[t].name].task == Some(t);
      }
    }
  }

  // What a sync comes to

  /** The last configuration of a name. */
  function LastOf(cs: seq<Config>, name: string): (c: Config)
    requires name in Names(cs)
    ensures c in cs && c.name == name
  {
    var last := cs[|cs| - 1];
    if last.name == name then last else
    assert forall c <- cs :: c == last || c in cs[..|cs| - 1];
    LastOf(cs[..|cs| - 1], name)
  }

  lemma SyncOneShape(cron: Cron, s: State, c: Config)
    requires Inv(cron, s)
    ensures var s' := SyncOne(cron, s, c);
            && Inv(cron, s') && s'.entries.Keys == s.entries.Keys + {c.name}
            && s'.listeners == s.listeners && s'.held == s.held
            && s'.entries[c.name].config == c
            && forall name <- s.entries :: name != c.name ==> s'.entries[name] == s.entries[name]
  {
    hide InvalidMessage, Create;
    SyncOneEntries(cron, s, c);
    SyncOneTasks(cron, s, c);
    Created(cron, s.(live := s.live - TaskOf(s.entries, c.name)), c);
    if c.name in s.entries && s.entries[c.name].signature == Signature(c) {
      assert EntryOk(cron, c.name, s.entries[c.name]);
      SignatureInjective(s.entries[c.name].config, c);
    }
    hide Create, Signature, EntryOk, TasksOk, InvalidMessage;
  }

  lemma NamesSplit(cs: seq<Config>)
    requires cs != []
    ensures Names(cs) == Names(cs[..|cs| - 1]) + {cs[|cs| - 1].name}
  {
    assert cs == cs[..|cs| - 1] + [cs[|cs| - 1]];
  }

  lemma {:induction false} SyncAllEntries(cron: Cron, s: State, cs: seq<Config>)
    requires Inv(cron, s)
    ensures var s' := SyncAll(cron, s, cs);
            && Inv(cron, s') && s'.entries.Keys == s.entries.Keys + Names(cs)
            && s'.listeners == s.listeners && s'.held == s.held
            && forall name <- Names(cs) :: s'.entries[name].config == LastOf(cs, name)
    decreases |cs|
  {
    hide SyncOne, Inv, Signature;
    if cs != [] {
      hide Names;
      var rest, c := cs[..|cs| - 1], cs[|cs| - 1];
      SyncAllEntries(cron, s, rest);
      SyncOneShape(cron, SyncAll(cron, s, rest), c);
      NamesSplit(cs);
    }
  }

  /**
   * After a sync the entries bear exactly the configured names, the last configuration of a
   * name wins, and every task that lives is held by one entry and runs its configuration.
   */
  lemma SyncEntries(cron: Cron, s: State, cs: seq<Config>)
    requires Inv(cron, s)
    ensures var s' := Sync(cron, s, cs);
            && Inv(cron, s') && s'.entries.Keys == Names(cs)
            && s'.listeners == s.listeners && s'.held == s.held
            && forall name <- Names(cs) :: s'.entries[name].config == LastOf(cs, name)
  {
    hide SyncAll, EntriesOk, TasksOk;
    WithoutInv(cron, s, s.entries.Keys - Names(cs));
    SyncAllEntries(cron, Drop(s, Names(cs)), cs);
  }

  predicate AllAre(cs: seq<Config>, c: Config) {
    forall i :: 0 <= i < |cs| && cs[i].name == c.name ==> cs[i] == c
  }

  lemma AllAreSplit(cs: seq<Config>, c: Config)
    requires cs != []
    ensures AllAre(cs, c) <==>
            AllAre(cs[..|cs| - 1], c) && (cs[|cs| - 1].name == c.name ==> cs[|cs| - 1] == c)
  {
    assert cs == cs[..|cs| - 1] + [cs[|cs| - 1]];
  }

  lemma {:induction false} SyncAllTask(cron: Cron, s: State, cs: seq<Config>, name: string)
    requires Inv(cron, s) && name in s.entries && s.entries[name].task.Some?
    ensures var s' := SyncAll(cron, s, cs); var t := s.entries[name].task.value;
            && Inv(cron, s') && t < s'.nextTask && name in s'.entries
            && if AllAre(cs, s.entries[name].config) then s'.entries[name] == s.entries[name]
               else s'.entries[name].task != Some(t) && t !in s'.live
    decreases |cs|
  {
    hide Signature;
    assert EntryOk(cron, name, s.entries[name]);
    assert s.live[s.entries[name].task.value] == s.entries[name].config;
    hide EntriesOk, TasksOk, EntryOk, SyncOne;
    if cs != [] {
      hide AllAre;
      var rest, c := cs[..|cs| - 1], cs[|cs| - 1];
      SyncAllTask(cron, s, rest, name);
      SyncAllEntries(cron, s, rest);
      SyncOneShape(cron, SyncAll(cron, s, rest), c);
      OneTask(cron, SyncAll(cron, s, rest), c, name, s.entries[name].config, s.entries[name].task.value);
      AllAreSplit(cs, s.entries[name].config);
    }
  }

  lemma OneTask(cron: Cron, s: State, c: Config, name: string, config: Config, t: TaskId)
    requires Inv(cron, s) && name in s.entries && t < s.nextTask
    requires if s.entries[name].task == Some(t) then s.entries[name].config == config else t !in s.live
    ensures var s' := SyncOne(cron, s, c);
            && name in s'.entries && t < s'.nextTask
            && if s.entries[name].task == Some(t) && (c.name == name ==> c == config)
               then s'.entries[name] == s.entries[name]
               else s'.entries[name].task != Some(t) && t !in s'.live
  {
    assert EntryOk(cron, name, s.entries[name]);
    Created(cron, s.(live := s.live - TaskOf(s.entries, c.name)), c);
    if c.name == name && s.entries[name].signature == Signature(c) {
      SignatureInjective(s.entries[name].config, c);
    }
    hide Create, Signature, EntryOk, InvalidMessage;
  }

  /**
   * A task object lives on after a sync exactly when its name is still configured and every
   * configuration of that name is the one it runs; then its entry is untouched.
   */
  lemma TaskSurvives(cron: Cron, s: State, cs: seq<Config>, name: string)
    requires Inv(cron, s) && name in s.entries && s.entries[name].task.Some?
    ensures var s' := Sync(cron, s, cs); var e := s.entries[name];
            && (e.task.value in s'.live <==> name in Names(cs) && AllAre(cs, e.config))
            && (e.task.value in s'.live ==> name in s'.entries && s'.entries[name] == e)
  {
    var names, t := Names(cs), s.entries[name].task.value;
    var s1 := Drop(s, names);
    WithoutInv(cron, s, s.entries.Keys - names);
    if name in names {
      SyncAllTask(cron, s1, cs, name);
    } else {
      SyncAllEntries(cron, s1, cs);
      NeverBack(cron, s1, cs, t);
    }
    hide SyncAll, Signature, AllAre;
  }

  /** A task that was destroyed does not come back. */
  lemma {:induction false} NeverBack(cron: Cron, s: State, cs: seq<Config>, t: TaskId)
    requires t < s.nextTask && t !in s.live
    ensures t < SyncAll(cron, s, cs).nextTask && t !in SyncAll(cron, s, cs).live
    decreases |cs|
  {
    hide Signature;
    if cs != [] { NeverBack(cron, s, cs[..|cs| - 1], t); }
  }

  // Whole runs

  lemma {:induction false} SyncTimesEntries(cron: Cron, s: State, cs: seq<Config>, n: nat)
    requires Inv(cron, s)
    ensures var s' := SyncTimes(cron, s, cs, n);
            && Inv(cron, s') && s'.entries.Keys == (if n == 0 then s.entries.Keys else Names(cs))
            && s'.listeners == s.listeners && s'.held == s.held
            && (n > 0 ==> forall name <- Names(cs) :: s'.entries[name].config == LastOf(cs, name))
  {
    hide Sync, Inv;
    if n != 0 {
      SyncTimesEntries(cron, s, cs, n - 1);
      SyncEntries(cron, SyncTimes(cron, s, cs, n - 1), cs);
    }
  }

  /** How often `start` came while the scheduler was started already. */
  function Overlaps(cron: Cron, events: seq<Event>): nat {
    if events == [] then 0 else
    var before := events[..|events| - 1];
    Overlaps(cron, before) + if events[|events| - 1].Start? && Run(cron, before).held then 1 else 0
  }

  lemma InvOnlyOfTasks(cron: Cron, s: State, listeners: nat, held: bool)
    requires Inv(cron, s)
    ensures Inv(cron, s.(listeners := listeners, held := held))
  {
    hide EntryOk;
    var s' := s.(listeners := listeners, held := held);
    assert s'.entries == s.entries && s'.live == s.live;
  }

  /** In every run the live tasks are exactly those the entries hold, and the listeners are accounted for. */
  lemma {:induction false} RunInv(cron: Cron, events: seq<Event>)
    ensures var s := Run(cron, events);
            && Inv(cron, s) && s.live.Keys == HeldTasks(s)
            && s.listeners == Overlaps(cron, events) + (if s.held then 1 else 0)
    decreases |events|
  {
    if events != [] {
      hide Sync, SyncTimes, EntriesOk, TasksOk, HeldTasks;
      var before, e := events[..|events| - 1], events[|events| - 1];
      RunInv(cron, before);
      var s := Run(cron, before);
      match e {
        case Start(cs) =>
          SyncEntries(cron, s, cs);
          InvOnlyOfTasks(cron, Sync(cron, s, cs), s.listeners + 1, true);
        case Change(cs) => SyncTimesEntries(cron, s, cs, s.listeners);
        case Stop =>
          WithoutInv(cron, s, s.entries.Keys);
          InvOnlyOfTasks(cron, Without(s, s.entries.Keys), Stopped(s).listeners, false);
      }
    }
    LiveAreHeld(cron, Run(cron, events));
  }

  lemma RunStep(cron: Cron, events: seq<Event>, e: Event)
    ensures Run(cron, events + [e]) == Apply(cron, Run(cron, events), e)
    ensures e.Stop? ==> Overlaps(cron, events + [e]) == Overlaps(cron, events)
  {
    assert (events + [e])[..|events|] == events;
  }

  /** No task is live after a stop, and no entry is left. */
  lemma StopClears(cron: Cron, events: seq<Event>)
    ensures var s := Run(cron, events + [Stop]); s.entries == map[] && s.live == map[] && !s.held
  {
    hide Sync, SyncTimes;
    RunStep(cron, events, Stop);
    RunInv(cron, events);
    var s := Run(cron, events);
    forall t <- s.live ensures t !in Stopped(s).live {
      assert t in TaskOf(s.entries, s.live[t].name);
    }
  }

  /**
   * Whether a stopped scheduler stays stopped: it ignores every later change of the
   * configuration exactly when no `start` of the run came while it was started already.
   */
  lemma AfterStop(cron: Cron, events: seq<Event>, cs: seq<Config>)
    ensures var stopped := Run(cron, events + [Stop]); var s := Apply(cron, stopped, Change(cs));
            if Overlaps(cron, events) == 0 then s == stopped && s.live == map[] else s.entries.Keys == Names(cs)
  {
    hide Sync, Inv, Names, HeldTasks, Stopped;
    StopClears(cron, events);
    RunStep(cron, events, Stop);
    RunInv(cron, events + [Stop]);
    var stopped := Run(cron, events + [Stop]);
    SyncTimesEntries(cron, stopped, cs, stopped.listeners);
  }

  /**
   * The scheduler has what these configurations ask for: entries of their names, the last
   * configuration of each, a live task that runs it if it is enabled with a valid schedule,
   * none if not, and the error of an enabled one whose schedule is invalid.
   */
  ghost predicate Carries(cron: Cron, s: State, cs: seq<Config>) {
    && (forall name :: name in s.entries <==> exists i :: 0 <= i < |cs| && cs[i].name == name)
    && (forall i :: 0 <= i < |cs| && (forall j :: i < j < |cs| ==> cs[j].name != cs[i].name) ==>
          Carried(cron, s, cs[i]))
    && (forall t <- s.live :: exists i :: 0 <= i < |cs| && s.live[t] == cs[i])
  }

  /** The configuration has its entry: with a live task that runs it, disabled, or with the error of its schedule. */
  predicate Carried(cron: Cron, s: State, c: Config) {
    && c.name in s.entries
    && var e := s.entries[c.name];
    && e.config == c
    && (if c.enabled && cron(c.schedule)
        then e.task.Some? && e.task.value in s.live && s.live[e.task.value] == c && e.valid && e.lastError.None?
        else e.task.None?)
    && (!c.enabled ==> e.valid && e.lastError.None?)
    && (c.enabled && !cron(c.schedule) ==>
          !e.valid && e.lastError
          == Some("Invalid cron expression for automation " + c.name + ": " + c.schedule))
  }

  lemma EntryCarries(cron: Cron, s: State, c: Config)
    requires Inv(cron, s) && c.name in s.entries && s.entries[c.name].config == c
    ensures Carried(cron, s, c)
  {
    hide Signature, TasksOk;
  }

  lemma LastOfIs(cs: seq<Config>, i: nat)
    requires i < |cs| && forall j :: i < j < |cs| ==> cs[j].name != cs[i].name
    ensures cs[i].name in Names(cs) && LastOf(cs, cs[i].name) == cs[i]
    decreases |cs|
  {
    assert cs[i] in cs;
    if i < |cs| - 1 {
      LastOfIs(cs[..|cs| - 1], i);
    }
  }

  lemma LiveRuns(cron: Cron, s: State, t: TaskId)
    requires Inv(cron, s) && t in s.live
    ensures s.live[t].name in s.entries && s.entries[s.live[t].name].config == s.live[t]
  {
    hide EntryOk;
    assert s.entries[s.live[t].name].task == Some(t);
  }

  lemma CarriesLast(cron: Cron, s: State, cs: seq<Config>)
    requires Inv(cron, s) && s.entries.Keys == Names(cs)
    requires forall name <- Names(cs) :: s.entries[name].config == LastOf(cs, name)
    ensures Carries(cron, s, cs)
  {
    hide EntryOk, Inv, Carried;
    forall name ensures name in s.entries <==> exists i :: 0 <= i < |cs| && cs[i].name == name {
      if name in Names(cs) {
        var c :| c in cs && c.name == name;
        var i :| 0 <= i < |cs| && cs[i] == c;
      }
    }
    forall i | 0 <= i < |cs| && (forall j :: i < j < |cs| ==> cs[j].name != cs[i].name)
      ensures Carried(cron, s, cs[i])
    {
      LastOfIs(cs, i);
      EntryCarries(cron, s, cs[i]);
    }
    forall t <- s.live ensures exists i :: 0 <= i < |cs| && s.live[t] == cs[i] {
      LiveRuns(cron, s, t);
      assert s.entries[s.live[t].name].config == LastOf(cs, s.live[t].name);
    }
  }

  /** A start schedules what is configured then, and so does every later change, whatever came before. */
  lemma StartsAndChangesCarry(cron: Cron, events: seq<Event>, cs: seq<Config>)
    ensures Carries(cron, Run(cron, events + [Start(cs)]), cs)
    ensures Run(cron, events).listeners > 0 ==> Carries(cron, Run(cron, events + [Change(cs)]), cs)
    ensures Run(cron, events).listeners == 0 ==> Run(cron, events + [Change(cs)]) == Run(cron, events)
    ensures Run(cron, events + [Start(cs)]).listeners == Run(cron, events).listeners + 1
  {
    hide Sync, SyncTimes, Carries, Inv, Names;
    RunInv(cron, events);
    RunStep(cron, events, Start(cs));
    RunStep(cron, events, Change(cs));
    hide Run;
    var s := Run(cron, events);
    SyncEntries(cron, s, cs);
    InvOnlyOfTasks(cron, Sync(cron, s, cs), s.listeners + 1, true);
    CarriesLast(cron, Sync(cron, s, cs).(listeners := s.listeners + 1, held := true), cs);
    if s.listeners > 0 {
      SyncTimesEntries(cron, s, cs, s.listeners);
      CarriesLast(cron, SyncTimes(cron, s, cs, s.listeners), cs);
    } else {
      NoSync(cron, s, cs);
    }
  }

  lemma NoSync(cron: Cron, s: State, cs: seq<Config>)
    ensures SyncTimes(cron, s, cs, 0) == s
  {
  }

  /** Started twice and stopped once, a change of the configuration brings a task to life again. */
  lemma LeakExample(cron: Cron, c: Config)
    requires c.enabled && cron(c.schedule)
    ensures Run(cron, [Start([]), Start([]), Stop]).live == map[]
    ensures exists t :: t in Run(cron, [Start([]), Start([]), Stop, Change([c])]).live
                        && Run(cron, [Start([]), Start([]), Stop, Change([c])]).live[t] == c
  {
    var twice := [Start([]), Start([])];
    assert [Start([]), Start([]), Stop] == twice + [Stop];
    assert [Start([]), Start([]), Stop, Change([c])] == twice + [Stop] + [Change([c])];
    StartedTwice(cron);
    hide Run, Overlaps, Apply;
    StopClears(cron, twice);
    RunStep(cron, twice, Stop);
    RunStep(cron, twice + [Stop], Change([c]));
    RunInv(cron, twice + [Stop]);
    ChangeSchedules(cron, Run(cron, twice + [Stop]), c);
  }

  /** As long as anyone listens, a change to one valid configuration leaves a task that runs it. */
  lemma ChangeSchedules(cron: Cron, s: State, c: Config)
    requires Inv(cron, s) && s.listeners > 0 && c.enabled && cron(c.schedule)
    ensures exists t :: t in Apply(cron, s, Change([c])).live && Apply(cron, s, Change([c])).live[t] == c
  {
    hide SyncTimes, Signature;
    SyncTimesEntries(cron, s, [c], s.listeners);
    var s' := Apply(cron, s, Change([c]));
    assert c in [c] && c.name in Names([c]);
    assert LastOf([c], c.name) == c;
    assert EntryOk(cron, c.name, s'.entries[c.name]);
    var t := s'.entries[c.name].task.value;
    assert t in s'.live && s'.live[t] == c;
  }

  lemma StartedTwice(cron: Cron)
    ensures Overlaps(cron, [Start([]), Start([])]) == 1
  {
    hide Sync;
    assert [Start([]), Start([])][..1] == [Start([])] && [Start([])][..0] == [];
  }

  // The object

  class AutomationScheduler {
    const cron: Cron
    var entries: map<string, Entry>
    var live: map<TaskId, Config>
    var nextTask: TaskId
    var listeners: nat
    var held: bool

    constructor (cron: Cron)
      ensures this.cron == cron && View() == EMPTY
    {
      this.cron := cron;
      entries, live, nextTask, listeners, held := map[], map[], 0, 0, false;
    }

    function View(): State
      reads this
    {
      State(entries, live, nextTask, listeners, held)
    }

    method Start(configs: seq<Config>)
      modifies this
      ensures View() == Apply(cron, old(View()), Event.Start(configs))
    {
      hide Sync;
      SyncKeeps(cron, View(), configs);
      SyncEntriesWith(configs);
      listeners := listeners + 1;
      held := true;
    }

    /** The store's notification: each subscribed callback syncs. */
    method OnChange(configs: seq<Config>)
      modifies this
      ensures View() == Apply(cron, old(View()), Change(configs))
    {
      hide Sync;
      for n := 0 to listeners
        invariant View() == SyncTimes(cron, old(View()), configs, n) && listeners == old(listeners)
      {
        SyncKeeps(cron, View(), configs);
        SyncEntriesWith(configs);
      }
    }

    method Stop()
      modifies this
      ensures View() == Apply(cron, old(View()), Event.Stop)
    {
      if held && listeners > 0 {
        listeners := listeners - 1;
      }
      held := false;
      DestroyAll(entries.Keys);
      entries := map[];
      WithoutAll(old(View()));
    }

    /** `task?.destroy()` for the entries of these names. */
    method DestroyAll(names: set<string>)
      modifies this`live
      ensures live == old(live) - TasksOf(entries, names)
    {
      var todo := names;
      while todo != {}
        invariant todo <= names
        invariant live == old(live) - TasksOf(entries, names - todo)
        decreases |todo|
      {
        var name :| name in todo;
        DestroyOne(old(live), entries, names - todo, name);
        live := live - TaskOf(entries, name);
        assert names - (todo - {name}) == names - todo + {name};
        todo := todo - {name};
      }
      assert names - {} == names;
    }

    /** `sync` */
    method SyncEntriesWith(configs: seq<Config>)
      modifies this
      ensures View() == Sync(cron, old(View()), configs)
    {
      hide Signature;
      var names := Names(configs);
      DestroyAll(entries.Keys - names);
      entries := entries - (entries.Keys - names);
      assert View() == Drop(old(View()), names);
      for n := 0 to |configs|
        invariant View() == SyncAll(cron, Drop(old(View()), names), configs[..n])
      {
        var c := configs[n];
        var signature := Signature(c);
        if !(c.name in entries && entries[c.name].signature == signature) {
          live := live - TaskOf(entries, c.name);
          CreateEntry(c, signature);
        }
        assert configs[..n + 1][..n] == configs[..n];
      }
      assert configs[..|configs|] == configs;
    }

    method CreateEntry(c: Config, signature: string)
      requires signature == Signature(c)
      modifies this
      ensures View() == Create(cron, old(View()), c)
    {
      if !c.enabled {
        entries := entries[c.name := Entry(c, signature, None, true, None)];
        return;
      }
      if !cron(c.schedule) {
        entries := entries[c.name := Entry(c, signature, None, false, Some(InvalidMessage(c)))];
        return;
      }
      var task := nextTask;
      live := live[task := c];
      nextTask := nextTask + 1;
      entries := entries[c.name := Entry(c, signature, Some(task), true, None)];
    }
  }

  lemma DestroyOne(live: map<TaskId, Config>, entries: map<string, Entry>, done: set<string>, name: string)
    ensures live - TasksOf(entries, done) - TaskOf(entries, name) == live - TasksOf(entries, done + {name})
  {
  }

  lemma WithoutAll(s: State)
    ensures Without(s, s.entries.Keys).entries == map[]
  {
  }

  lemma {:induction false} SyncKeeps(cron: Cron, s: State, cs: seq<Config>)
    ensures Sync(cron, s, cs).listeners == s.listeners
    decreases |cs|
  {
    SyncAllKeeps(cron, Drop(s, Names(cs)), cs);
  }

  lemma {:induction false} SyncAllKeeps(cron: Cron, s: State, cs: seq<Config>)
    ensures SyncAll(cron, s, cs).listeners == s.listeners
    decreases |cs|
  {
    hide Signature;
    if cs != [] { SyncAllKeeps(cron, s, cs[..|cs| - 1]); }
  }
}
