/** acquiresleep, releasesleep, sleep and wakeup at the granularity of single spin-lock
    operations, for any number of processes contending for one sleep lock. Two spin locks
    are involved: the sleep lock's own lk and ptable.lock. */
module SleepLock {

  /** Where a process is. The comments say which spin locks it holds there. */
  datatype Place =
    | Idle
    | WantLk        // acquiresleep: acquire(&lk->lk)
    | Testing       // lk: while (lk->locked)
    | Got           // lk: the sleep lock is taken
    | Holding       // owns the sleep lock
    | SleepWantPt   // lk: sleep: acquire(&ptable.lock)
    | SleepBoth     // lk, ptable: release(lk)
    | SleepPt       // ptable: state = SLEEPING; sched()
    | Asleep
    | Woken         // runnable again, still inside sleep
    | RelWantLk     // releasesleep: acquire(&lk->lk), still owns the sleep lock
    | RelLk         // lk: locked = 0; pid = 0
    | RelCleared    // lk: wakeup: acquire(&ptable.lock)
    | RelWaking     // lk, ptable: wakeup1
    | RelWoke       // lk, ptable: release(&ptable.lock)
    | RelDone       // lk: release(&lk->lk)

  /** Spin-lock owners and the sleep lock's holder are process indices, -1 for none. */
  datatype State = State(places: seq<Place>, lk: int, pt: int, locked: bool, holder: int)

  function Init(n: nat): State {
    State(seq(n, _ => Idle), -1, -1, false, -1)
  }

  predicate HoldsLk(a: Place) {
    a.Testing? || a.Got? || a.SleepWantPt? || a.SleepBoth? || a.RelLk? || a.RelCleared?
    || a.RelWaking? || a.RelWoke? || a.RelDone?
  }

  predicate HoldsPt(a: Place) {
    a.SleepBoth? || a.SleepPt? || a.RelWaking? || a.RelWoke?
  }

  predicate Owns(a: Place) {
    a.Got? || a.Holding? || a.RelWantLk? || a.RelLk?
  }

  // ---------------------------------------------------------------- steps

  /** A process moves on, or kill wakes a sleeper. */
  datatype Step = Move(p: nat) | Kill(p: nat)

  predicate Enabled(s: State, step: Step) {
    && step.p < |s.places|
    && var a := s.places[step.p];
       match step
       case Kill(_) => a.Asleep? && s.pt == -1
       case Move(_) =>
         && !a.Asleep?
         && (a.WantLk? || a.RelWantLk? ==> s.lk == -1)
         && (a.SleepWantPt? || a.RelCleared? ==> s.pt == -1)
  }

  function To(s: State, p: nat, a: Place): State
    requires p < |s.places|
  {
    s.(places := s.places[p := a])
  }

  /** wakeup1 on the sleep lock's channel. */
  function WakeAll(places: seq<Place>): (r: seq<Place>)
    ensures |r| == |places| && forall i :: 0 <= i < |r| ==> r[i] == if places[i].Asleep? then Woken else places[i]
  {
    seq(|places|, i requires 0 <= i < |places| => if places[i].Asleep? then Woken else places[i])
  }

  function Apply(s: State, step: Step): State
    requires step.p < |s.places|
  {
    var p := step.p;
    if step.Kill? then To(s, p, Woken)
    else
      match s.places[p]
      case Idle => To(s, p, WantLk)
      case WantLk => To(s, p, Testing).(lk := p)
      case Testing => if s.locked then To(s, p, SleepWantPt) else To(s, p, Got).(locked := true, holder := p)
      case Got => To(s, p, Holding).(lk := -1)
      case Holding => To(s, p, RelWantLk)
      case SleepWantPt => To(s, p, SleepBoth).(pt := p)
      case SleepBoth => To(s, p, SleepPt).(lk := -1)
      case SleepPt => To(s, p, Asleep).(pt := -1)
      case Asleep => s
      case Woken => To(s, p, WantLk)
      case RelWantLk => To(s, p, RelLk).(lk := p)
      case RelLk => To(s, p, RelCleared).(locked := false, holder := -1)
      case RelCleared => To(s, p, RelWaking).(pt := p)
      case RelWaking => To(s.(places := WakeAll(s.places)), p, RelWoke)
      case RelWoke => To(s, p, RelDone).(pt := -1)
      case RelDone => To(s, p, Idle).(lk := -1)
  }

  // ---------------------------------------------------------------- invariant

  /** Somebody has given the lock up and has yet to run wakeup1, holding lk all along. */
  predicate WakeComing(s: State) {
    0 <= s.lk < |s.places| && (s.places[s.lk].RelCleared? || s.places[s.lk].RelWaking?)
  }

  predicate PlaceOk(s: State, p: nat)
    requires p < |s.places|
  {
    var a := s.places[p];
    && (HoldsLk(a) <==> s.lk == p)
    && (HoldsPt(a) <==> s.pt == p)
    && (Owns(a) ==> s.locked && s.holder == p)
    && (a.SleepWantPt? || a.SleepBoth? ==> s.locked)
    && (a.SleepPt? || a.Asleep? ==> s.locked || WakeComing(s))
  }

  predicate Inv(s: State) {
    && -1 <= s.lk < |s.places| && -1 <= s.pt < |s.places|
    && (s.locked ==> 0 <= s.holder < |s.places| && Owns(s.places[s.holder]))
    && (forall p :: 0 <= p < |s.places| ==> PlaceOk(s, p))
  }

  predicate OwnersOk(s: State) {
    && -1 <= s.lk < |s.places| && -1 <= s.pt < |s.places|
    && (s.lk >= 0 ==> HoldsLk(s.places[s.lk])) && (s.pt >= 0 ==> HoldsPt(s.places[s.pt]))
    && (s.locked ==> 0 <= s.holder < |s.places| && Owns(s.places[s.holder]))
  }

  /** The step of p does not disturb what holds at another place q. */
  lemma StepKeepsOther(s: State, step: Step, q: nat)
    requires OwnersOk(s) && Enabled(s, step) && q < |s.places| && q != step.p && PlaceOk(s, step.p) && PlaceOk(s, q)
    ensures PlaceOk(Apply(s, step), q)
  {
    match s.places[step.p]
    case Idle | Holding | Woken | Asleep =>
    case WantLk | Testing | Got =>
    case SleepWantPt | SleepBoth | SleepPt =>
    case RelWantLk | RelLk | RelCleared =>
    case RelWaking | RelWoke | RelDone =>
  }

  lemma StepKeepsSelf(s: State, step: Step)
    requires OwnersOk(s) && Enabled(s, step) && PlaceOk(s, step.p)
    ensures PlaceOk(Apply(s, step), step.p)
  {
  }

  lemma StepKeepsOwners(s: State, step: Step)
    requires OwnersOk(s) && Enabled(s, step) && PlaceOk(s, step.p)
    ensures OwnersOk(Apply(s, step))
  {
  }

  lemma StepKeepsInv(s: State, step: Step)
    requires Inv(s) && Enabled(s, step)
    ensures Inv(Apply(s, step))
  {
    assert PlaceOk(s, step.p) && (s.lk >= 0 ==> PlaceOk(s, s.lk)) && (s.pt >= 0 ==> PlaceOk(s, s.pt));
    StepKeepsOwners(s, step);
    forall q | 0 <= q < |s.places| ensures PlaceOk(Apply(s, step), q) {
      assert PlaceOk(s, q);
      if q == step.p {
        StepKeepsSelf(s, step);
      } else {
        StepKeepsOther(s, step, q);
      }
    }
  }

  ghost predicate Run(s: State, steps: seq<Step>, t: State)
    decreases |steps|
  {
    if steps == [] then t == s
    else Enabled(s, steps[0]) && Run(Apply(s, steps[0]), steps[1..], t)
  }

  lemma {:induction false} RunKeepsInv(s: State, steps: seq<Step>, t: State)
    requires Inv(s) && Run(s, steps, t)
    ensures Inv(t)
    decreases |steps|
  {
    if steps != [] {
      StepKeepsInv(s, steps[0]);
      RunKeepsInv(Apply(s, steps[0]), steps[1..], t);
    }
  }

  /** No lost wakeup, in every interleaving of any number of processes, with kills: when lk
      is free a process asleep on the sleep lock means that the lock is held. Even while lk
      is taken there is always a process, itself awake, that holds the sleep lock or is about
      to wake the sleepers. The holder is unique. */
  lemma NoLostWakeup(n: nat, steps: seq<Step>, t: State, p: nat)
    requires Run(Init(n), steps, t) && p < |t.places|
    ensures t.places[p].Asleep? && t.lk == -1 ==> t.locked
    ensures t.places[p].Asleep? ==>
      exists q :: 0 <= q < |t.places| && (Owns(t.places[q]) || t.places[q].RelCleared? || t.places[q].RelWaking?)
    ensures forall q :: 0 <= q < |t.places| && Owns(t.places[p]) && Owns(t.places[q]) ==> p == q
    ensures t.locked <==> exists q :: 0 <= q < |t.places| && Owns(t.places[q])
  {
    assert Inv(Init(n)) by {
      forall q | 0 <= q < n ensures PlaceOk(Init(n), q) {
      }
    }
    RunKeepsInv(Init(n), steps, t);
    assert PlaceOk(t, p);
    forall q | 0 <= q < |t.places| && Owns(t.places[q]) ensures t.locked && t.holder == q {
      assert PlaceOk(t, q);
    }
  }

  // ---------------------------------------------------------------- the two calls

  /** Inside acquiresleep and still without the sleep lock. */
  predicate Acquiring(a: Place) {
    a.WantLk? || a.Testing? || a.SleepWantPt? || a.SleepBoth? || a.SleepPt? || a.Asleep? || a.Woken?
  }

  /** Process p has just taken the sleep lock, or just given it up. */
  predicate Took(s: State, p: nat) {
    p < |s.places| && s.places[p].Got? && s.locked && s.holder == p
  }

  predicate GaveUp(s: State, p: nat) {
    p < |s.places| && s.places[p].RelCleared? && !s.locked && s.holder == -1
  }

  /** acquiresleep ends only with the sleep lock, only releasesleep gives it up, and no step of
      another process takes it away. */
  predicate InCall(s: State, t: State, p: nat)
    requires p < |s.places| == |t.places|
  {
    var b := t.places[p];
    match s.places[p]
    case Idle => b.Idle? || b.WantLk?
    case Got => b.Got? || b.Holding?
    case Holding => b.Holding? || b.RelWantLk?
    case RelWantLk => b.RelWantLk? || b.RelLk?
    case RelLk => b.RelLk? || GaveUp(t, p)
    case RelCleared | RelWaking | RelWoke | RelDone => b.Idle? || b.RelCleared? || b.RelWaking? || b.RelWoke? || b.RelDone?
    case _ => Acquiring(b) || Took(t, p)
  }

  lemma StepKeepsCall(s: State, step: Step, p: nat)
    requires Enabled(s, step) && p < |s.places|
    ensures |Apply(s, step).places| == |s.places| && InCall(s, Apply(s, step), p)
  {
    match s.places[step.p]
    case Idle | Holding | Woken | Asleep =>
    case WantLk | Testing | Got =>
    case SleepWantPt | SleepBoth | SleepPt =>
    case RelWantLk | RelLk | RelCleared =>
    case RelWaking | RelWoke | RelDone =>
  }

  /** The run from s to t comes by u after k steps. */
  ghost predicate Passes(s: State, steps: seq<Step>, k: nat, u: State, t: State) {
    k <= |steps| && Run(s, steps[..k], u) && Run(u, steps[k..], t)
  }

  lemma PassesLater(s: State, steps: seq<Step>, k: nat, u: State, t: State)
    requires steps != [] && Enabled(s, steps[0]) && Passes(Apply(s, steps[0]), steps[1..], k, u, t)
    ensures Passes(s, steps, k + 1, u, t)
  {
    assert steps[..k + 1][1..] == steps[1..][..k] && steps[k + 1..] == steps[1..][k..];
  }

  /** Over a whole run, kills and all, a process that has come out of acquiresleep took the sleep
      lock on the way, in state u. */
  lemma {:induction false} AcquireReturnsHolding(s: State, steps: seq<Step>, t: State, p: nat) returns (k: nat, u: State)
    requires Run(s, steps, t) && p < |s.places| == |t.places| && Acquiring(s.places[p]) && !Acquiring(t.places[p])
    ensures Passes(s, steps, k, u, t) && Took(u, p)
    decreases |steps|
  {
    u := Apply(s, steps[0]);
    k := 0;
    StepKeepsCall(s, steps[0], p);
    if Acquiring(u.places[p]) {
      k, u := AcquireReturnsHolding(u, steps[1..], t, p);
    }
    PassesLater(s, steps, k, u, t);
    k := k + 1;
  }

  /** The owner of the sleep lock is without it again only after giving it up in releasesleep. */
  lemma {:induction false} OwnerKeepsLock(s: State, steps: seq<Step>, t: State, p: nat) returns (k: nat, u: State)
    requires Run(s, steps, t) && p < |s.places| == |t.places| && Owns(s.places[p]) && !Owns(t.places[p])
    ensures Passes(s, steps, k, u, t) && GaveUp(u, p)
    decreases |steps|
  {
    u := Apply(s, steps[0]);
    k := 0;
    StepKeepsCall(s, steps[0], p);
    if Owns(u.places[p]) {
      k, u := OwnerKeepsLock(u, steps[1..], t, p);
    }
    PassesLater(s, steps, k, u, t);
    k := k + 1;
  }
}
