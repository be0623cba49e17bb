/** The morpheme registry (`factum-core/src/morphemes.rs`). Its methods run concurrently under two read-write locks;
    here every lock acquisition, read, write and release is a step of its own, and threads interleave freely. */
module Morphemes {
  import opened Types

  type Tid = nat

  /** Where a call is. The comments name the locks it holds. */
  datatype Proc =
    | Idle
    | RegStart(name: Text)                 // wants by_name.read
    | RegRead(name: Text)                  // by_name.read
    | RegReadFound(name: Text, id: nat)    // by_name.read
    | RegGap(name: Text)                   // wants by_name.write
    | RegChecking(name: Text)              // by_name.write
    | RegFound(name: Text, id: nat)        // by_name.write
    | RegMissing(name: Text)               // by_name.write, wants by_id.write
    | RegPushing(name: Text)               // by_name.write, by_id.write
    | RegPushed(name: Text, id: nat)       // by_name.write, by_id.write
    | RegInserted(name: Text, id: nat)     // by_name.write, by_id.write
    | RegLeaving(name: Text, id: nat)      // by_name.write
    | Registered(name: Text, id: nat)
    | LookStart(name: Text)                // wants by_name.read
    | LookRead(name: Text)                 // by_name.read
    | LookNamed(name: Text, id: nat)       // by_name.read, wants by_id.read
    | LookBoth(name: Text, id: nat)        // by_name.read, by_id.read
    | LookedUp(name: Text, found: Option<Text>)
    | IdStart(id: nat)                     // wants by_id.read
    | IdRead(id: nat)                      // by_id.read
    | IdLookedUp(id: nat, found: Option<Text>)
    | ResStart(name: Text)                 // wants by_name.read
    | ResRead(name: Text)                  // by_name.read
    | Resolved(name: Text, answer: Option<nat>)

  /** The shared maps and where every thread is. A definition is represented by its name. */
  datatype System = System(byName: map<Text, nat>, byId: seq<Text>, procs: map<Tid, Proc>)

  predicate ReadsName(p: Proc) {
    p.RegRead? || p.RegReadFound? || p.LookRead? || p.LookNamed? || p.LookBoth? || p.ResRead?
  }

  predicate WritesName(p: Proc) {
    p.RegChecking? || p.RegFound? || p.RegMissing? || p.RegPushing? || p.RegPushed? || p.RegInserted? || p.RegLeaving?
  }

  predicate ReadsId(p: Proc) {
    p.LookBoth? || p.IdRead?
  }

  predicate WritesId(p: Proc) {
    p.RegPushing? || p.RegPushed? || p.RegInserted?
  }

  predicate WantsNameRead(p: Proc) {
    p.RegStart? || p.LookStart? || p.ResStart?
  }

  predicate WantsIdRead(p: Proc) {
    p.LookNamed? || p.IdStart?
  }

  /** Between calls. */
  predicate Resting(p: Proc) {
    p.Idle? || p.Registered? || p.LookedUp? || p.IdLookedUp? || p.Resolved?
  }

  ghost predicate NoneElse(s: System, t: Tid, holds: Proc -> bool) {
    forall u <- s.procs :: u != t ==> !holds(s.procs[u])
  }

  /** Whether a lock lets thread `t` take its next step. With `fair`, a waiting writer keeps new readers out. */
  ghost predicate Enabled(s: System, t: Tid, fair: bool)
    requires t in s.procs
  {
    var p := s.procs[t];
    && !Resting(p)
    && (WantsNameRead(p) ==> NoneElse(s, t, WritesName) && (fair ==> NoneElse(s, t, (q: Proc) => q.RegGap?)))
    && (p.RegGap? ==> NoneElse(s, t, WritesName) && NoneElse(s, t, ReadsName))
    && (WantsIdRead(p) ==> NoneElse(s, t, WritesId) && (fair ==> NoneElse(s, t, (q: Proc) => q.RegMissing?)))
    && (p.RegMissing? ==> NoneElse(s, t, WritesId) && NoneElse(s, t, ReadsId))
  }

  function At(s: System, t: Tid, p: Proc): System {
    s.(procs := s.procs[t := p])
  }

  /** The id given to the next morpheme: `by_id.len() as u32`. */
  function NextId(s: System): nat {
    |s.byId| % U32_LIMIT
  }

  function AtId(s: System, id: nat): Option<Text> {
    if id < |s.byId| then Some(s.byId[id]) else None
  }

  function AtName(s: System, name: Text): Option<nat> {
    if name in s.byName then Some(s.byName[name]) else None
  }

  /** What thread `t` does next. */
  function Advance(s: System, t: Tid): System
    requires t in s.procs
  {
    match s.procs[t]
    case RegStart(n) => At(s, t, RegRead(n))
    case RegRead(n) => At(s, t, if n in s.byName then RegReadFound(n, s.byName[n]) else RegGap(n))
    case RegReadFound(n, id) => At(s, t, Registered(n, id))
    case RegGap(n) => At(s, t, RegChecking(n))
    case RegChecking(n) => At(s, t, if n in s.byName then RegFound(n, s.byName[n]) else RegMissing(n))
    case RegFound(n, id) => At(s, t, Registered(n, id))
    case RegMissing(n) => At(s, t, RegPushing(n))
    case RegPushing(n) => At(s, t, RegPushed(n, NextId(s))).(byId := s.byId + [n])
    case RegPushed(n, id) => At(s, t, RegInserted(n, id)).(byName := s.byName[n := id])
    case RegInserted(n, id) => At(s, t, RegLeaving(n, id))
    case RegLeaving(n, id) => At(s, t, Registered(n, id))
    case LookStart(n) => At(s, t, LookRead(n))
    case LookRead(n) => At(s, t, if n in s.byName then LookNamed(n, s.byName[n]) else LookedUp(n, None))
    case LookNamed(n, id) => At(s, t, LookBoth(n, id))
    case LookBoth(n, id) => At(s, t, LookedUp(n, AtId(s, id)))
    case IdStart(id) => At(s, t, IdRead(id))
    case IdRead(id) => At(s, t, IdLookedUp(id, AtId(s, id)))
    case ResStart(n) => At(s, t, ResRead(n))
    case ResRead(n) => At(s, t, Resolved(n, AtName(s, n)))
    case _ => s
  }

  datatype Call = Register(name: Text) | Lookup(name: Text) | LookupId(id: nat) | ResolveName(name: Text)

  function Start(call: Call): Proc {
    match call
    case Register(n) => RegStart(n)
    case Lookup(n) => LookStart(n)
    case LookupId(id) => IdStart(id)
    case ResolveName(n) => ResStart(n)
  }

  /** A thread takes its next step or, between calls, makes a call. */
  datatype Event = Goes(t: Tid) | Begins(t: Tid, call: Call)

  ghost predicate Allowed(s: System, e: Event) {
    match e
    case Goes(t) => t in s.procs && Enabled(s, t, false)
    case Begins(t, _) => t in s.procs && Resting(s.procs[t])
  }

  function Next(s: System, e: Event): System
    requires e.t in s.procs
  {
    match e
    case Goes(t) => Advance(s, t)
    case Begins(t, call) => At(s, t, Start(call))
  }

  function Initially(threads: set<Tid>): System {
    System(map[], [], map t | t in threads :: Idle)
  }

  // ----- the invariant -----

  ghost predicate Exclusive(s: System) {
    && (forall t <- s.procs :: WritesName(s.procs[t]) ==> NoneElse(s, t, WritesName) && NoneElse(s, t, ReadsName))
    && (forall t <- s.procs :: WritesId(s.procs[t]) ==> NoneElse(s, t, WritesId) && NoneElse(s, t, ReadsId))
  }

  /** What a thread's place says about the maps. */
  ghost predicate Placed(s: System, p: Proc) {
    match p
    case RegReadFound(n, id) => n in s.byName && s.byName[n] == id
    case RegFound(n, id) => n in s.byName && s.byName[n] == id
    case RegMissing(n) => n !in s.byName
    case RegPushing(n) => n !in s.byName
    case RegPushed(n, id) => n !in s.byName && id + 1 == |s.byId| && s.byId[id] == n
    case RegInserted(n, id) => n in s.byName && s.byName[n] == id
    case RegLeaving(n, id) => n in s.byName && s.byName[n] == id
    case Registered(n, id) => n in s.byName && s.byName[n] == id
    case LookNamed(n, id) => n in s.byName && s.byName[n] == id
    case LookBoth(n, id) => n in s.byName && s.byName[n] == id
    case LookedUp(n, found) => found.Some? ==> found.value == n && n in s.byName
    case IdLookedUp(id, found) => found.Some? ==> id < |s.byId| && s.byId[id] == found.value
    case Resolved(n, answer) => answer.Some? ==> n in s.byName && s.byName[n] == answer.value
    case _ => true
  }

  ghost predicate NamesPointBack(s: System) {
    forall n <- s.byName :: s.byName[n] < |s.byId| && s.byId[s.byName[n]] == n
  }

  /** Every id but one just pushed is the id of its name. */
  ghost predicate IdsPointBack(s: System) {
    forall i :: 0 <= i < |s.byId| && !(exists t :: t in s.procs && IsPushed(s.procs[t], i)) ==>
      s.byId[i] in s.byName && s.byName[s.byId[i]] == i
  }

  predicate IsPushed(p: Proc, i: nat) {
    p.RegPushed? && p.id == i
  }

  ghost predicate Inv(s: System) {
    && Exclusive(s)
    && NamesPointBack(s)
    && IdsPointBack(s)
    && (forall t <- s.procs :: Placed(s, s.procs[t]))
  }

  lemma InitialInv(threads: set<Tid>)
    ensures Inv(Initially(threads))
  {
  }

  // ----- locks -----

  /** A step that takes only what it may keeps the locks exclusive. */
  lemma ExclusiveAfter(s: System, t: Tid, p: Proc)
    requires Exclusive(s) && t in s.procs
    requires WritesName(p) ==> WritesName(s.procs[t]) || (NoneElse(s, t, WritesName) && NoneElse(s, t, ReadsName))
    requires ReadsName(p) ==> ReadsName(s.procs[t]) || NoneElse(s, t, WritesName)
    requires WritesId(p) ==> WritesId(s.procs[t]) || (NoneElse(s, t, WritesId) && NoneElse(s, t, ReadsId))
    requires ReadsId(p) ==> ReadsId(s.procs[t]) || NoneElse(s, t, WritesId)
    ensures Exclusive(At(s, t, p))
  {
    hide WritesName, ReadsName, WritesId, ReadsId;
    var after := At(s, t, p);
    forall u | u in after.procs && WritesName(after.procs[u])
      ensures NoneElse(after, u, WritesName) && NoneElse(after, u, ReadsName)
    {
    }
    forall u | u in after.procs && WritesId(after.procs[u])
      ensures NoneElse(after, u, WritesId) && NoneElse(after, u, ReadsId)
    {
    }
  }

  lemma AdvanceExclusive(s: System, t: Tid)
    requires Exclusive(s) && t in s.procs && Enabled(s, t, false)
    ensures Exclusive(Advance(s, t))
  {
    hide NoneElse, Exclusive;
    var p := Advance(s, t).procs[t];
    ExclusiveAfter(s, t, p);
    SharedDoNotMatter(At(s, t, p), Advance(s, t));
  }

  lemma SharedDoNotMatter(a: System, b: System)
    requires a.procs == b.procs && Exclusive(a)
    ensures Exclusive(b)
  {
    hide WritesName, ReadsName, WritesId, ReadsId;
    forall u, holds | NoneElse(a, u, holds) ensures NoneElse(b, u, holds) {
    }
  }

  // ----- the maps -----

  /** Names keep their ids and ids keep their names. */
  ghost predicate Grows(s: System, after: System) {
    && s.byId <= after.byId
    && forall n <- s.byName :: n in after.byName && after.byName[n] == s.byName[n]
  }

  lemma GrowsSelf(s: System)
    ensures Grows(s, s)
  {
  }

  lemma GrowsTransitive(a: System, b: System, c: System)
    requires Grows(a, b) && Grows(b, c)
    ensures Grows(a, c)
  {
    forall n | n in a.byName ensures n in c.byName && c.byName[n] == a.byName[n] {
      assert n in b.byName;
    }
  }

  lemma PlacedGrows(s: System, after: System, p: Proc)
    requires Grows(s, after) && Placed(s, p) && !WritesName(p)
    ensures Placed(after, p)
  {
    assert forall i :: 0 <= i < |s.byId| ==> after.byId[i] == s.byId[i];
  }

  lemma PlacedSame(s: System, after: System, p: Proc)
    requires s.byName == after.byName && s.byId == after.byId
    ensures Placed(s, p) <==> Placed(after, p)
  {
  }

  lemma WritersAlone(s: System, t: Tid, u: Tid)
    requires Exclusive(s) && t in s.procs && u in s.procs && u != t && WritesName(s.procs[t])
    ensures !WritesName(s.procs[u]) && !IsPushedAny(s.procs[u])
  {
    hide ReadsName, WritesId, ReadsId;
    assert NoneElse(s, t, WritesName);
  }

  predicate IsPushedAny(p: Proc) {
    p.RegPushed?
  }

  lemma OthersPlaced(s: System, after: System, t: Tid)
    requires Exclusive(s) && t in s.procs && t in after.procs && after.procs == s.procs[t := after.procs[t]]
    requires forall u <- s.procs :: Placed(s, s.procs[u])
    requires (s.byName == after.byName && s.byId == after.byId) || (WritesName(s.procs[t]) && Grows(s, after))
    ensures forall u <- after.procs :: u != t ==> Placed(after, after.procs[u])
  {
    hide Placed, Exclusive, WritesName, Grows;
    forall u | u in after.procs && u != t ensures Placed(after, after.procs[u]) {
      if s.byName == after.byName && s.byId == after.byId {
        PlacedSame(s, after, s.procs[u]);
      } else {
        WritersAlone(s, t, u);
        PlacedGrows(s, after, s.procs[u]);
      }
    }
  }

  /** Steps that touch neither map. */
  predicate Quiet(p: Proc) {
    !p.RegPushing? && !p.RegPushed?
  }

  lemma QuietStep(s: System, t: Tid)
    requires t in s.procs && Quiet(s.procs[t])
    ensures Advance(s, t).byName == s.byName && Advance(s, t).byId == s.byId
    ensures t in Advance(s, t).procs && Advance(s, t).procs == s.procs[t := Advance(s, t).procs[t]]
    ensures !IsPushedAny(s.procs[t]) && !IsPushedAny(Advance(s, t).procs[t])
  {
  }

  lemma QuietPlaced(s: System, t: Tid)
    requires t in s.procs && Quiet(s.procs[t]) && Placed(s, s.procs[t]) && NamesPointBack(s)
    ensures t in Advance(s, t).procs && Placed(Advance(s, t), Advance(s, t).procs[t])
  {
  }

  lemma SamePushed(s: System, after: System, t: Tid, i: nat)
    requires t in s.procs && t in after.procs && after.procs == s.procs[t := after.procs[t]]
    requires !IsPushedAny(s.procs[t]) && !IsPushedAny(after.procs[t])
    ensures (exists u :: u in after.procs && IsPushed(after.procs[u], i))
       <==> (exists u :: u in s.procs && IsPushed(s.procs[u], i))
  {
    if u :| u in s.procs && IsPushed(s.procs[u], i) {
      assert u in after.procs && IsPushed(after.procs[u], i);
    }
    if u :| u in after.procs && IsPushed(after.procs[u], i) {
      assert u in s.procs && IsPushed(s.procs[u], i);
    }
  }

  lemma QuietKeepsMaps(s: System, after: System, t: Tid)
    requires t in s.procs && t in after.procs && after.procs == s.procs[t := after.procs[t]]
    requires !IsPushedAny(s.procs[t]) && !IsPushedAny(after.procs[t])
    requires s.byName == after.byName && s.byId == after.byId && NamesPointBack(s) && IdsPointBack(s)
    ensures NamesPointBack(after) && IdsPointBack(after)
  {
    hide IsPushed;
    forall i | 0 <= i < |after.byId| && !(exists u :: u in after.procs && IsPushed(after.procs[u], i))
      ensures after.byId[i] in after.byName && after.byName[after.byId[i]] == i
    {
      SamePushed(s, after, t, i);
    }
  }

  lemma QuietKeeps(s: System, t: Tid)
    requires Inv(s) && t in s.procs && Enabled(s, t, false) && Quiet(s.procs[t])
    ensures Inv(Advance(s, t)) && Grows(s, Advance(s, t))
  {
    hide Exclusive, Placed, NamesPointBack, IdsPointBack, Enabled, Advance, Quiet;
    var after := Advance(s, t);
    QuietStep(s, t);
    AdvanceExclusive(s, t);
    OthersPlaced(s, after, t);
    QuietPlaced(s, t);
    QuietKeepsMaps(s, after, t);
  }

  lemma PushStep(s: System, t: Tid)
    requires t in s.procs && s.procs[t].RegPushing?
    ensures var after := Advance(s, t);
            && after.byName == s.byName && after.byId == s.byId + [s.procs[t].name]
            && after.procs == s.procs[t := RegPushed(s.procs[t].name, NextId(s))]
            && Grows(s, after)
  {
  }

  lemma PushMaps(s: System, after: System, t: Tid, n: Text)
    requires NamesPointBack(s) && IdsPointBack(s) && t in s.procs
    requires forall u <- s.procs :: !IsPushedAny(s.procs[u])
    requires after.byName == s.byName && after.byId == s.byId + [n]
    requires after.procs == s.procs[t := RegPushed(n, |s.byId|)]
    ensures NamesPointBack(after) && IdsPointBack(after)
  {
    forall i | 0 <= i < |after.byId| && !(exists u :: u in after.procs && IsPushed(after.procs[u], i))
      ensures after.byId[i] in after.byName && after.byName[after.byId[i]] == i
    {
      assert IsPushed(after.procs[t], |s.byId|);
      assert i < |s.byId|;
    }
  }

  lemma NoOtherPushed(s: System, t: Tid)
    requires Exclusive(s) && t in s.procs && WritesName(s.procs[t]) && !IsPushedAny(s.procs[t])
    ensures forall u <- s.procs :: !IsPushedAny(s.procs[u])
  {
    hide Exclusive, WritesName, IsPushedAny;
    forall u | u in s.procs ensures !IsPushedAny(s.procs[u]) {
      if u != t {
        WritersAlone(s, t, u);
      }
    }
  }

  lemma PushKeeps(s: System, t: Tid)
    requires Inv(s) && t in s.procs && Enabled(s, t, false) && s.procs[t].RegPushing? && |s.byId| < U32_LIMIT
    ensures Inv(Advance(s, t)) && Grows(s, Advance(s, t))
  {
    hide Exclusive, NamesPointBack, IdsPointBack, Enabled, Advance, Grows;
    var after := Advance(s, t);
    PushStep(s, t);
    AdvanceExclusive(s, t);
    NoOtherPushed(s, t);
    OthersPlaced(s, after, t);
    PushMaps(s, after, t, s.procs[t].name);
    assert NextId(s) == |s.byId|;
  }

  lemma InsertStep(s: System, t: Tid)
    requires t in s.procs && s.procs[t].RegPushed? && Placed(s, s.procs[t])
    ensures var p, after := s.procs[t], Advance(s, t);
            && after.byName == s.byName[p.name := p.id] && after.byId == s.byId
            && after.procs == s.procs[t := RegInserted(p.name, p.id)]
            && Grows(s, after)
  {
  }

  lemma InsertMaps(s: System, after: System, t: Tid, n: Text, id: nat)
    requires NamesPointBack(s) && IdsPointBack(s) && t in s.procs && s.procs[t] == RegPushed(n, id)
    requires n !in s.byName && id + 1 == |s.byId| && s.byId[id] == n
    requires forall u <- s.procs :: u != t ==> !IsPushedAny(s.procs[u])
    requires after.byName == s.byName[n := id] && after.byId == s.byId
    requires after.procs == s.procs[t := RegInserted(n, id)]
    ensures NamesPointBack(after) && IdsPointBack(after)
  {
    forall i | 0 <= i < |after.byId| ensures after.byId[i] in after.byName && after.byName[after.byId[i]] == i {
      if i != id {
        forall u | u in s.procs ensures !IsPushed(s.procs[u], i) {
        }
      }
    }
  }

  lemma InsertKeeps(s: System, t: Tid)
    requires Inv(s) && t in s.procs && Enabled(s, t, false) && s.procs[t].RegPushed?
    ensures Inv(Advance(s, t)) && Grows(s, Advance(s, t))
  {
    hide Exclusive, NamesPointBack, IdsPointBack, Enabled, Advance, Grows;
    var p, after := s.procs[t], Advance(s, t);
    InsertStep(s, t);
    AdvanceExclusive(s, t);
    OthersPlaced(s, after, t);
    forall u | u in s.procs && u != t ensures !IsPushedAny(s.procs[u]) {
      WritersAlone(s, t, u);
    }
    InsertMaps(s, after, t, p.name, p.id);
  }

  lemma BeginKeeps(s: System, t: Tid, call: Call)
    requires Inv(s) && t in s.procs && Resting(s.procs[t])
    ensures Inv(At(s, t, Start(call))) && Grows(s, At(s, t, Start(call)))
  {
    hide Exclusive, NamesPointBack, IdsPointBack, Placed;
    var after := At(s, t, Start(call));
    BeginExclusive(s, t, call);
    OthersPlaced(s, after, t);
    StartPlaced(after, call);
    RestingNotPushed(s.procs[t], call);
    QuietKeepsMaps(s, after, t);
  }

  lemma BeginExclusive(s: System, t: Tid, call: Call)
    requires Exclusive(s) && t in s.procs
    ensures Exclusive(At(s, t, Start(call)))
  {
    ExclusiveAfter(s, t, Start(call));
    hide Exclusive;
  }

  lemma StartPlaced(s: System, call: Call)
    ensures Placed(s, Start(call))
  {
  }

  lemma RestingNotPushed(p: Proc, call: Call)
    ensures Resting(p) ==> !IsPushedAny(p)
    ensures !IsPushedAny(Start(call))
  {
  }

  /** Every step of every thread keeps the invariant and only adds to the maps, as long as there is an id left. */
  lemma StepKeeps(s: System, e: Event)
    requires Inv(s) && e.t in s.procs && Allowed(s, e) && |Next(s, e).byId| <= U32_LIMIT
    ensures Inv(Next(s, e)) && Grows(s, Next(s, e)) && Next(s, e).procs.Keys == s.procs.Keys
  {
    hide Inv, Enabled, Grows;
    match e
    case Begins(t, call) => BeginKeeps(s, t, call);
    case Goes(t) =>
      if s.procs[t].RegPushing? {
        PushKeeps(s, t);
      } else if s.procs[t].RegPushed? {
        InsertKeeps(s, t);
      } else {
        QuietKeeps(s, t);
      }
  }

  // ----- runs -----

  /** `run` is an execution: every state follows from the one before by an allowed event. */
  ghost predicate IsRun(run: seq<System>) {
    run != [] && forall i :: 0 < i < |run| ==> Steps(run[i - 1], run[i])
  }

  ghost predicate Steps(s: System, after: System) {
    exists e :: IsStep(s, e, after)
  }

  ghost predicate IsStep(s: System, e: Event, after: System) {
    e.t in s.procs && Allowed(s, e) && after == Next(s, e)
  }

  lemma NeverShrinks(s: System, e: Event)
    requires e.t in s.procs
    ensures |s.byId| <= |Next(s, e).byId|
  {
  }

  lemma {:induction false} RunNeverShrinks(run: seq<System>, i: nat, j: nat)
    requires IsRun(run) && i <= j < |run|
    ensures |run[i].byId| <= |run[j].byId|
    decreases j
  {
    hide Next, Allowed;
    if i < j {
      RunNeverShrinks(run, i, j - 1);
      assert Steps(run[j - 1], run[j]);
      var e :| IsStep(run[j - 1], e, run[j]);
      NeverShrinks(run[j - 1], e);
    }
  }

  /** In every interleaving that registers at most 2^32 morphemes the invariant holds throughout and the maps only
      grow. */
  lemma {:induction false} EveryInterleaving(run: seq<System>, threads: set<Tid>, i: nat, j: nat)
    requires IsRun(run) && run[0] == Initially(threads) && i <= j < |run| && |run[|run| - 1].byId| <= U32_LIMIT
    ensures Inv(run[j]) && Grows(run[i], run[j])
    decreases j
  {
    hide Inv, Grows, Next, Allowed;
    RunNeverShrinks(run, j, |run| - 1);
    if j == 0 {
      InitialInv(threads);
      GrowsSelf(run[0]);
    } else {
      assert Steps(run[j - 1], run[j]);
      var e :| IsStep(run[j - 1], e, run[j]);
      if i == j {
        EveryInterleaving(run, threads, j - 1, j - 1);
        StepKeeps(run[j - 1], e);
        GrowsSelf(run[j]);
      } else {
        EveryInterleaving(run, threads, i, j - 1);
        StepKeeps(run[j - 1], e);
        GrowsTransitive(run[i], run[j - 1], run[j]);
      }
    }
  }

  /** Whenever nobody holds a write lock the two maps are each other's inverse and ids are dense. */
  lemma InverseWhenFree(s: System)
    requires Inv(s) && forall t <- s.procs :: !WritesName(s.procs[t])
    ensures forall n <- s.byName :: s.byName[n] < |s.byId| && s.byId[s.byName[n]] == n
    ensures forall i :: 0 <= i < |s.byId| ==> s.byId[i] in s.byName && s.byName[s.byId[i]] == i
  {
    hide Exclusive, Placed;
    forall i, t | t in s.procs ensures !IsPushed(s.procs[t], i) {
    }
  }

  /** All callers that register a name, at any time and from any thread, are given the same id, and so is every caller
      that resolves it later or at the same time and finds it. */
  lemma OneIdPerName(run: seq<System>, threads: set<Tid>, i: nat, j: nat, t: Tid, u: Tid, name: Text)
    requires IsRun(run) && run[0] == Initially(threads) && i <= j < |run| && |run[|run| - 1].byId| <= U32_LIMIT
    requires t in run[i].procs && run[i].procs[t].Registered? && run[i].procs[t].name == name
    requires u in run[j].procs
    ensures run[j].procs[u].Registered? && run[j].procs[u].name == name ==> run[j].procs[u].id == run[i].procs[t].id
    ensures run[j].procs[u].Resolved? && run[j].procs[u].name == name && run[j].procs[u].answer.Some? ==>
              run[j].procs[u].answer.value == run[i].procs[t].id
    ensures name in run[j].byName && run[j].byName[name] == run[i].procs[t].id
  {
    hide IsRun, Exclusive, NamesPointBack, IdsPointBack;
    EveryInterleaving(run, threads, i, i);
    EveryInterleaving(run, threads, i, j);
    assert Placed(run[i], run[i].procs[t]) && Placed(run[j], run[j].procs[u]);
  }

  // ----- what calls answer -----

  /** How many steps of its own a call has left at most. */
  function StepsLeft(p: Proc): nat {
    match p
    case RegStart(_) => 9
    case RegRead(_) => 8
    case RegReadFound(_, _) => 1
    case RegGap(_) => 7
    case RegChecking(_) => 6
    case RegFound(_, _) => 1
    case RegMissing(_) => 5
    case RegPushing(_) => 4
    case RegPushed(_, _) => 3
    case RegInserted(_, _) => 2
    case RegLeaving(_, _) => 1
    case LookStart(_) => 4
    case LookRead(_) => 3
    case LookNamed(_, _) => 2
    case LookBoth(_, _) => 1
    case IdStart(_) => 2
    case IdRead(_) => 1
    case ResStart(_) => 2
    case ResRead(_) => 1
    case _ => 0
  }

  /** Every call is over after at most nine steps of its own, whatever happens in between. */
  lemma EveryStepCounts(s: System, t: Tid)
    requires t in s.procs && !Resting(s.procs[t])
    ensures t in Advance(s, t).procs && StepsLeft(Advance(s, t).procs[t]) < StepsLeft(s.procs[t]) <= 9
    ensures Resting(Advance(s, t).procs[t]) <==> StepsLeft(Advance(s, t).procs[t]) == 0
  {
  }

  /** Where a call about a name registered as `id`, or about an id that has a name, may be, and what it may answer. */
  ghost predicate OnWay(call: Call, id: nat, name: Text, p: Proc) {
    match call
    case Register(n) =>
      || p == RegStart(n) || p == RegRead(n) || p == RegReadFound(n, id) || p == RegGap(n) || p == RegChecking(n)
      || p == RegFound(n, id) || p == Registered(n, id)
    case Lookup(n) =>
      || p == LookStart(n) || p == LookRead(n) || p == LookNamed(n, id) || p == LookBoth(n, id)
      || p == LookedUp(n, Some(n))
    case LookupId(k) => p == IdStart(k) || p == IdRead(k) || p == IdLookedUp(k, Some(name))
    case ResolveName(n) => p == ResStart(n) || p == ResRead(n) || p == Resolved(n, Some(id))
  }

  /** What the call asks about is there: its name under the id, or its id under the name. */
  ghost predicate Known(s: System, call: Call, id: nat, name: Text) {
    match call
    case LookupId(k) => k < |s.byId| && s.byId[k] == name
    case _ => call.name in s.byName && s.byName[call.name] == id && id < |s.byId| && s.byId[id] == call.name
  }

  lemma KnownGrows(s: System, after: System, call: Call, id: nat, name: Text)
    requires Known(s, call, id, name) && Grows(s, after)
    ensures Known(after, call, id, name)
  {
    assert forall k :: 0 <= k < |s.byId| ==> after.byId[k] == s.byId[k];
  }

  lemma OnWayStep(s: System, t: Tid, call: Call, id: nat, name: Text)
    requires t in s.procs && OnWay(call, id, name, s.procs[t]) && Known(s, call, id, name)
    ensures t in Advance(s, t).procs && OnWay(call, id, name, Advance(s, t).procs[t])
  {
  }

  /** A call that begins when its name is registered, or its id given, is answered by that: from any thread, in every
      interleaving, and whatever the other threads do before it is over. */
  lemma {:induction false} KnownIsFound(
      run: seq<System>, threads: set<Tid>, i: nat, j: nat, t: Tid, call: Call, id: nat, name: Text)
    requires IsRun(run) && run[0] == Initially(threads) && i <= j < |run| && |run[|run| - 1].byId| <= U32_LIMIT
    requires t in run[i].procs && run[i].procs[t] == Start(call) && Known(run[i], call, id, name)
    requires forall k :: i <= k < j ==> t in run[k].procs && !Resting(run[k].procs[t])
    ensures t in run[j].procs && OnWay(call, id, name, run[j].procs[t])
    decreases j
  {
    hide Known, OnWay, Resting, Advance, Inv, Grows, Enabled;
    if i == j {
      StartsOnWay(call, id, name);
    } else {
      KnownIsFound(run, threads, i, j - 1, t, call, id, name);
      assert Steps(run[j - 1], run[j]);
      var e :| IsStep(run[j - 1], e, run[j]);
      EveryInterleaving(run, threads, i, j - 1);
      KnownGrows(run[i], run[j - 1], call, id, name);
      if e == Goes(t) {
        OnWayStep(run[j - 1], t, call, id, name);
      } else {
        OthersStay(run[j - 1], e, t);
      }
    }
  }

  lemma StartsOnWay(call: Call, id: nat, name: Text)
    ensures OnWay(call, id, name, Start(call))
  {
  }

  lemma OthersStay(s: System, e: Event, t: Tid)
    requires e.t in s.procs && Allowed(s, e) && t in s.procs && !Resting(s.procs[t]) && e != Goes(t)
    ensures t in Next(s, e).procs && Next(s, e).procs[t] == s.procs[t]
  {
  }

  /** A call that is over and began when what it asks about was there has found it. */
  lemma KnownIsAnswered(
      run: seq<System>, threads: set<Tid>, i: nat, j: nat, t: Tid, call: Call, id: nat, name: Text)
    requires IsRun(run) && run[0] == Initially(threads) && i <= j < |run| && |run[|run| - 1].byId| <= U32_LIMIT
    requires t in run[i].procs && run[i].procs[t] == Start(call) && Known(run[i], call, id, name)
    requires forall k :: i <= k < j ==> t in run[k].procs && !Resting(run[k].procs[t])
    requires t in run[j].procs && Resting(run[j].procs[t])
    ensures run[j].procs[t]
         == match call
            case Register(n) => Registered(n, id)
            case Lookup(n) => LookedUp(n, Some(n))
            case LookupId(k) => IdLookedUp(k, Some(name))
            case ResolveName(n) => Resolved(n, Some(id))
  {
    KnownIsFound(run, threads, i, j, t, call, id, name);
    hide IsRun, Known;
  }

  /** And what is not there when it is over was not found. */
  lemma NothingInvented(s: System, t: Tid)
    requires Inv(s) && t in s.procs
    ensures s.procs[t].Resolved? && s.procs[t].name !in s.byName ==> s.procs[t].answer == None
    ensures s.procs[t].LookedUp? && s.procs[t].name !in s.byName ==> s.procs[t].found == None
    ensures s.procs[t].IdLookedUp? && s.procs[t].id >= |s.byId| ==> s.procs[t].found == None
  {
    hide Exclusive, NamesPointBack, IdsPointBack;
    assert Placed(s, s.procs[t]);
  }

  // ----- no deadlock -----

  predicate HoldsId(p: Proc) {
    ReadsId(p) || WritesId(p)
  }

  predicate HoldsName(p: Proc) {
    ReadsName(p) || WritesName(p)
  }

  /** The fixed order of the locks: whoever holds `by_id` waits for nothing, and whoever holds `by_name` waits for
      `by_id` at most. */
  lemma WaitsInOrder(p: Proc)
    ensures HoldsId(p) ==> !WantsNameRead(p) && !p.RegGap? && !WantsIdRead(p) && !p.RegMissing? && !Resting(p)
    ensures HoldsName(p) ==> !WantsNameRead(p) && !p.RegGap? && !Resting(p)
  {
  }

  ghost predicate Someone(s: System, does: Proc -> bool) {
    exists t :: t in s.procs && does(s.procs[t])
  }

  lemma NobodyElseHolds(s: System, t: Tid)
    ensures !Someone(s, HoldsId) ==> NoneElse(s, t, WritesId) && NoneElse(s, t, ReadsId)
    ensures !Someone(s, HoldsName) ==> NoneElse(s, t, WritesName) && NoneElse(s, t, ReadsName)
  {
    hide ReadsId, WritesId, ReadsName, WritesName;
    if !Someone(s, HoldsId) {
      forall u | u in s.procs ensures !HoldsId(s.procs[u]) {
      }
    }
    if !Someone(s, HoldsName) {
      forall u | u in s.procs ensures !HoldsName(s.procs[u]) {
      }
    }
  }

  /** No deadlock, whether or not waiting writers keep new readers out: while some call is unfinished, some thread can
      take its next step. */
  lemma NoDeadlock(s: System, fair: bool)
    requires Someone(s, (p: Proc) => !Resting(p))
    ensures exists t :: t in s.procs && Enabled(s, t, fair)
  {
    if t :| t in s.procs && HoldsId(s.procs[t]) {
      WaitsInOrder(s.procs[t]);
      assert Enabled(s, t, fair);
    } else if t :| t in s.procs && s.procs[t].RegMissing? {
      NobodyElseHolds(s, t);
      assert Enabled(s, t, fair);
    } else if t :| t in s.procs && (HoldsName(s.procs[t]) || s.procs[t].IdStart?) {
      NobodyElseHolds(s, t);
      assert Enabled(s, t, fair);
    } else if t :| t in s.procs && s.procs[t].RegGap? {
      NobodyElseHolds(s, t);
      assert Enabled(s, t, fair);
    } else {
      var t :| t in s.procs && !Resting(s.procs[t]);
      NobodyElseHolds(s, t);
      assert Enabled(s, t, fair);
    }
  }

  // ----- the width of an id -----

  /** The 2^32+1st morpheme is given id 0, which belongs to another name. */
  lemma IdsWrap(s: System, t: Tid)
    requires Inv(s) && t in s.procs && s.procs[t].RegPushing? && |s.byId| == U32_LIMIT
    ensures var after := Advance(Advance(s, t), t);
            && after.byName[s.procs[t].name] == 0
            && after.byId[0] != s.procs[t].name
  {
    hide Exclusive;
    forall u | u in s.procs && u != t ensures !IsPushed(s.procs[u], 0) {
      WritersAlone(s, t, u);
    }
    assert Placed(s, s.procs[t]);
    assert s.byId[0] in s.byName;
  }

  /** A lookup that found an id always finds its definition, under the right name. */
  lemma LookupFindsDefinition(s: System, t: Tid)
    requires Inv(s) && t in s.procs && s.procs[t].LookBoth?
    ensures Advance(s, t).procs[t] == LookedUp(s.procs[t].name, Some(s.procs[t].name))
  {
    hide Exclusive, IdsPointBack;
    assert Placed(s, s.procs[t]);
  }

  // ----- one call at a time -----

  /** `register` run to its end with nobody in between. */
  function RegisterWhole(byName: map<Text, nat>, byId: seq<Text>, name: Text): (map<Text, nat>, seq<Text>, nat) {
    if name in byName then (byName, byId, byName[name])
    else
      var id := |byId| % U32_LIMIT;
      (byName[name := id], byId + [name], id)
  }

  function Steps9(s: System, t: Tid): System
    requires t in s.procs
  {
    Steps3(Steps3(Steps3(s, t), t), t)
  }

  function Steps3(s: System, t: Tid): (r: System)
    requires t in s.procs
    ensures t in r.procs
  {
    AdvanceThread(AdvanceThread(AdvanceThread(s, t), t), t)
  }

  function AdvanceThread(s: System, t: Tid): (r: System)
    requires t in s.procs
    ensures t in r.procs
  {
    Advance(s, t)
  }

  /** A thread alone takes nine steps to register a new name and three to find a known one, and its steps come to the
      same as the whole call. */
  lemma AloneIsWhole(s: System, t: Tid, name: Text)
    requires t in s.procs && s.procs[t] == RegStart(name)
    ensures var after := if name in s.byName then Steps3(s, t) else Steps9(s, t);
            var whole := RegisterWhole(s.byName, s.byId, name);
            && after.byName == whole.0 && after.byId == whole.1 && after.procs[t] == Registered(name, whole.2)
  {
    hide Steps3;
    if name in s.byName {
      FoundSteps(s, t, name);
    } else {
      FirstSteps(s, t, name);
      MiddleSteps(Steps3(s, t), t, name);
      LastSteps(Steps3(Steps3(s, t), t), t, name, NextId(s));
    }
  }

  lemma FoundSteps(s: System, t: Tid, name: Text)
    requires t in s.procs && s.procs[t] == RegStart(name) && name in s.byName
    ensures var after := Steps3(s, t);
            after.byName == s.byName && after.byId == s.byId && after.procs[t] == Registered(name, s.byName[name])
  {
  }

  lemma FirstSteps(s: System, t: Tid, name: Text)
    requires t in s.procs && s.procs[t] == RegStart(name) && name !in s.byName
    ensures var after := Steps3(s, t);
            after.byName == s.byName && after.byId == s.byId && after.procs[t] == RegChecking(name)
  {
  }

  lemma MiddleSteps(s: System, t: Tid, name: Text)
    requires t in s.procs && s.procs[t] == RegChecking(name) && name !in s.byName
    ensures var after := Steps3(s, t);
            after.byName == s.byName && after.byId == s.byId + [name] && after.procs[t] == RegPushed(name, NextId(s))
  {
  }

  lemma LastSteps(s: System, t: Tid, name: Text, id: nat)
    requires t in s.procs && s.procs[t] == RegPushed(name, id)
    ensures var after := Steps3(s, t);
            after.byName == s.byName[name := id] && after.byId == s.byId && after.procs[t] == Registered(name, id)
  {
  }

  // ----- a run that uses up the ids -----

  /** Some execution leads from the one state to the other. */
  ghost predicate Leads(first: System, last: System) {
    exists run :: IsRunTo(run, first, last)
  }

  ghost predicate IsRunTo(run: seq<System>, first: System, last: System) {
    IsRun(run) && run[0] == first && run[|run| - 1] == last
  }

  lemma LeadsSelf(s: System)
    ensures Leads(s, s)
  {
    assert IsRunTo([s], s, s);
  }

  lemma LeadsMore(first: System, s: System, e: Event, after: System)
    requires Leads(first, s) && IsStep(s, e, after)
    ensures Leads(first, after)
  {
    hide IsStep;
    var run :| IsRunTo(run, first, s);
    var more := run + [after];
    assert forall i :: 0 <= i < |run| ==> more[i] == run[i];
    assert more[|run| - 1] == s && more[|run|] == after;
    assert Steps(s, after);
    assert IsRunTo(more, first, after);
  }

  /** A system of one thread. */
  function Solo(byName: map<Text, nat>, byId: seq<Text>, p: Proc): System {
    System(byName, byId, map[0 := p])
  }

  function SoloAdvance(byName: map<Text, nat>, byId: seq<Text>, p: Proc): System {
    Advance(Solo(byName, byId, p), 0)
  }

  lemma SoloGoes(first: System, byName: map<Text, nat>, byId: seq<Text>, p: Proc)
    requires Leads(first, Solo(byName, byId, p)) && !Resting(p)
    ensures Leads(first, SoloAdvance(byName, byId, p))
  {
    hide Leads, Advance;
    LeadsMore(first, Solo(byName, byId, p), Goes(0), SoloAdvance(byName, byId, p));
  }

  lemma SoloSteps(byName: map<Text, nat>, byId: seq<Text>, name: Text, id: nat)
    requires name !in byName
    ensures SoloAdvance(byName, byId, RegStart(name)) == Solo(byName, byId, RegRead(name))
    ensures SoloAdvance(byName, byId, RegRead(name)) == Solo(byName, byId, RegGap(name))
    ensures SoloAdvance(byName, byId, RegGap(name)) == Solo(byName, byId, RegChecking(name))
    ensures SoloAdvance(byName, byId, RegChecking(name)) == Solo(byName, byId, RegMissing(name))
    ensures SoloAdvance(byName, byId, RegMissing(name)) == Solo(byName, byId, RegPushing(name))
    ensures SoloAdvance(byName, byId, RegPushing(name))
         == Solo(byName, byId + [name], RegPushed(name, |byId| % U32_LIMIT))
    ensures SoloAdvance(byName, byId, RegPushed(name, id)) == Solo(byName[name := id], byId, RegInserted(name, id))
  {
  }

  lemma SoloLeaves(byName: map<Text, nat>, byId: seq<Text>, name: Text, id: nat)
    ensures SoloAdvance(byName, byId, RegInserted(name, id)) == Solo(byName, byId, RegLeaving(name, id))
    ensures SoloAdvance(byName, byId, RegLeaving(name, id)) == Solo(byName, byId, Registered(name, id))
  {
  }

  lemma SoloBegins(first: System, byName: map<Text, nat>, byId: seq<Text>, p: Proc, name: Text)
    requires Leads(first, Solo(byName, byId, p)) && Resting(p)
    ensures Leads(first, Solo(byName, byId, RegStart(name)))
  {
    hide Leads;
    LeadsMore(first, Solo(byName, byId, p), Begins(0, Register(name)), Solo(byName, byId, RegStart(name)));
  }

  lemma NotResting(name: Text, id: nat)
    ensures !Resting(RegStart(name)) && !Resting(RegRead(name)) && !Resting(RegGap(name)) && !Resting(RegChecking(name))
    ensures !Resting(RegMissing(name)) && !Resting(RegPushing(name)) && !Resting(RegPushed(name, id))
    ensures !Resting(RegInserted(name, id)) && !Resting(RegLeaving(name, id))
  {
  }

  lemma SoloRegisters(first: System, byName: map<Text, nat>, byId: seq<Text>, p: Proc, name: Text)
    requires Leads(first, Solo(byName, byId, p)) && Resting(p) && name !in byName
    ensures var id := |byId| % U32_LIMIT;
            Leads(first, Solo(byName[name := id], byId + [name], Registered(name, id)))
  {
    var id := |byId| % U32_LIMIT;
    hide *;
    SoloBegins(first, byName, byId, p, name);
    NotResting(name, id);
    SoloSteps(byName, byId, name, id);
    SoloGoes(first, byName, byId, RegStart(name));
    SoloGoes(first, byName, byId, RegRead(name));
    SoloGoes(first, byName, byId, RegGap(name));
    SoloGoes(first, byName, byId, RegChecking(name));
    SoloGoes(first, byName, byId, RegMissing(name));
    SoloGoes(first, byName, byId, RegPushing(name));
    SoloSteps(byName, byId + [name], name, id);
    SoloGoes(first, byName, byId + [name], RegPushed(name, id));
    SoloLeaves(byName[name := id], byId + [name], name, id);
    SoloGoes(first, byName[name := id], byId + [name], RegInserted(name, id));
    SoloGoes(first, byName[name := id], byId + [name], RegLeaving(name, id));
  }

  /** Any number of names gets registered in some run; here by one thread. */
  lemma {:induction false} Fills(n: nat) returns (byName: map<Text, nat>, byId: seq<Text>, p: Proc)
    ensures Leads(Initially({0}), Solo(byName, byId, p)) && Resting(p)
    ensures |byId| == n && forall name <- byName :: |name| < n
    ensures n > 0 ==> byId[0] == "" && "" in byName && byName[""] == 0
  {
    if n == 0 {
      byName, byId, p := map[], [], Idle;
      LeadsSelf(Initially({0}));
      assert Initially({0}) == Solo(map[], [], Idle);
    } else {
      byName, byId, p := Fills(n - 1);
      var name: Text := seq(n - 1, _ => 'a');
      hide Leads, Solo;
      SoloRegisters(Initially({0}), byName, byId, p, name);
      var id := |byId| % U32_LIMIT;
      byName, byId, p := byName[name := id], byId + [name], Registered(name, id);
    }
  }

  /** There is a run after which two names have the id 0: the first one, and the one registered after 2^32 others. */
  lemma TwoNamesOneId() returns (run: seq<System>, name: Text)
    ensures IsRun(run) && run[0] == Initially({0})
    ensures var last := run[|run| - 1];
            && last.procs == map[0 := Registered(name, 0)] && name != ""
            && "" in last.byName && last.byName[""] == 0 && name in last.byName && last.byName[name] == 0
  {
    var byName, byId, p := Fills(U32_LIMIT);
    name := seq(U32_LIMIT, _ => 'a');
    SoloRegisters(Initially({0}), byName, byId, p, name);
    run :| IsRunTo(run, Initially({0}), Solo(byName[name := 0], byId + [name], Registered(name, 0)));
  }

  /** The registry object as one thread sees it. */
  class MorphemeRegistry {
    var byName: map<Text, nat>
    var byId: seq<Text>

    ghost predicate Valid()
      reads this
    {
      && (forall n <- byName :: byName[n] < |byId| && byId[byName[n]] == n)
      && (forall i :: 0 <= i < |byId| ==> byId[i] in byName && byName[byId[i]] == i)
    }

    constructor ()
      ensures Valid() && byId == []
    {
      byName := map[];
      byId := [];
    }

    method Register(name: Text) returns (id: nat)
      requires Valid() && (name in byName || |byId| < U32_LIMIT)
      modifies this
      ensures Valid() && (byName, byId, id) == RegisterWhole(old(byName), old(byId), name)
    {
      if name in byName {
        return byName[name];
      }
      id := |byId| % U32_LIMIT;
      byId := byId + [name];
      byName := byName[name := id];
    }

    method Resolve(name: Text) returns (r: Option<nat>)
      requires Valid()
      ensures r.Some? <==> name in byId
      ensures r.Some? ==> r.value < |byId| && byId[r.value] == name
    {
      r := if name in byName then Some(byName[name]) else None;
    }

    method Lookup(name: Text) returns (r: Option<Text>)
      requires Valid()
      ensures r == if name in byId then Some(name) else None
    {
      if name in byName {
        r := if byName[name] < |byId| then Some(byId[byName[name]]) else None;
      } else {
        r := None;
      }
    }
  }
}
