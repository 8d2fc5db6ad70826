/** The ordered work queue of async-thread.c: works run on any number of workers
    and finish in any order, but their ordered functions are called in the order
    the works were queued.

    A work is first submitted (list_add_tail under the lock, then queue_work) and
    later executed by a worker of its own.  `Phase` says where the submitter, and
    after it the worker, of a work stands; every step between two lock, unlock or
    bit operations is atomic, and a schedule says who moves next.
 */
module OrderedWork {
  import opened Prelude

  /** `v` is the local variable `work` of run_ordered_work. */
  datatype Phase =
    | Adding          // submitter, lock held, before list_add_tail
    | Added           // submitter, lock held, after it
    | Linked          // submitter, before queue_work
    | Waiting         // queued, no worker yet
    | Running         // in work->func
    | Ran             // func returned, WORK_DONE_BIT not set yet
    | Want            // top of the loop, before taking the lock
    | Peek            // lock held, before list_empty
    | SawHead(v: nat) // lock held, before test_bit(WORK_DONE_BIT)
    | SawDone(v: nat) // lock held, before test_and_set_bit(WORK_ORDER_DONE_BIT)
    | Claimed(v: nat) // lock held, before unlocking to call
    | Calling(v: nat) // in ordered_func(v)
    | Called(v: nat)  // returned, before taking the lock
    | Deleting(v: nat) // lock held, before list_del
    | Deleted(v: nat) // lock held, after it
    | AfterDel(v: nat) // unlocked, before freeing v or setting free_self
    | Breaking        // lock held, leaving the loop
    | Leaving         // unlocked, before the final free_self test
    | Gone

  /** The shared state, the workers' phases and their free_self flags; then logs of
      what has happened, in order, and who has claimed the head of the list. */
  datatype State = State(
    list: seq<nat>, done: set<nat>, orderDone: set<nat>, lock: Option<nat>,
    phase: map<nat, Phase>, freeSelf: set<nat>,
    queued: seq<nat>, finished: set<nat>, begun: seq<nat>, ended: seq<nat>, unlinked: seq<nat>, freed: seq<nat>,
    claimer: Option<nat>)

  const START := State([], {}, {}, None, map[], {}, [], {}, [], [], [], [], None)

  predicate HoldsLock(p: Phase) {
    || p.Adding? || p.Added? || p.Peek? || p.SawHead? || p.SawDone? || p.Claimed? || p.Deleting? || p.Deleted?
    || p.Breaking?
  }

  function To(s: State, w: nat, p: Phase): State { s.(phase := s.phase[w := p]) }

  function Lock(s: State, w: nat, p: Phase): State {
    if s.lock == None then To(s, w, p).(lock := Some(w)) else s
  }

  function Unlock(s: State, w: nat, p: Phase): State { To(s, w, p).(lock := None) }

  /** __apfs_queue_work. */
  function Submit(s: State, w: nat): State {
    if w !in s.phase then Lock(s, w, Adding)
    else match s.phase[w]
      case Adding => To(s, w, Added).(list := s.list + [w], queued := s.queued + [w])
      case Added => Unlock(s, w, Linked)
      case Linked => To(s, w, Waiting)
      case _ => s
  }

  /** apfs_work_helper, up to its call of run_ordered_work. */
  function Execute(s: State, w: nat): State
    requires w in s.phase
  {
    match s.phase[w]
    case Waiting => To(s, w, Running)
    case Running => To(s, w, Ran).(finished := s.finished + {w})
    case Ran => To(s, w, Want).(done := s.done + {w})
    case _ => s
  }

  /** The loop of run_ordered_work up to the claim. */
  function Look(s: State, w: nat): State
    requires w in s.phase
  {
    match s.phase[w]
    case Want => Lock(s, w, Peek)
    case Peek => To(s, w, if s.list == [] then Breaking else SawHead(s.list[0]))
    case SawHead(v) => To(s, w, if v in s.done then SawDone(v) else Breaking)
    case SawDone(v) =>
      if v in s.orderDone then To(s, w, Breaking)
      else To(s, w, Claimed(v)).(orderDone := s.orderDone + {v}, claimer := Some(w))
    case _ => s
  }

  /** After the loop. */
  function Leave(s: State, w: nat): State
    requires w in s.phase
  {
    match s.phase[w]
    case Breaking => Unlock(s, w, Leaving)
    case Leaving => To(s, w, Gone).(freed := if w in s.freeSelf then s.freed + [w] else s.freed)
    case _ => s
  }

  /** Calling the ordered function of the claimed work. */
  function Call(s: State, w: nat): State
    requires w in s.phase
  {
    match s.phase[w]
    case Claimed(v) => Unlock(s, w, Calling(v)).(begun := s.begun + [v])
    case Calling(v) => To(s, w, Called(v)).(ended := s.ended + [v])
    case Called(v) => Lock(s, w, Deleting(v))
    case _ => s
  }

  /** Taking the work off the list and freeing it. */
  function Drop(s: State, w: nat): State
    requires w in s.phase
  {
    match s.phase[w]
    case Deleting(v) =>
      To(s, w, Deleted(v)).(list := Without(s.list, v), unlinked := s.unlinked + [v], claimer := None)
    case Deleted(v) => Unlock(s, w, AfterDel(v))
    case AfterDel(v) =>
      if v == w then To(s, w, Want).(freeSelf := s.freeSelf + {w})
      else To(s, w, Want).(freed := s.freed + [v])
    case _ => s
  }

  /** The next atomic step of work `w`'s submitter or worker; nothing happens
      while it waits for the lock. */
  function Step(s: State, w: nat): State {
    if w !in s.phase then Submit(s, w)
    else match s.phase[w]
      case Adding => Submit(s, w)
      case Added => Submit(s, w)
      case Linked => Submit(s, w)
      case Waiting => Execute(s, w)
      case Running => Execute(s, w)
      case Ran => Execute(s, w)
      case Claimed(_) => Call(s, w)
      case Calling(_) => Call(s, w)
      case Called(_) => Call(s, w)
      case Deleting(_) => Drop(s, w)
      case Deleted(_) => Drop(s, w)
      case AfterDel(_) => Drop(s, w)
      case Breaking => Leave(s, w)
      case Leaving => Leave(s, w)
      case Gone => s
      case _ => Look(s, w)
  }

  /** The state after a schedule: any interleaving of any number of works. */
  function Run(schedule: seq<nat>): State {
    if schedule == [] then START else Step(Run(schedule[..|schedule|-1]), schedule[|schedule|-1])
  }

  /** The work whose memory a step reads or writes, apart from the step's own work
      before its WORK_DONE_BIT is set. */
  function Touched(s: State, w: nat): set<nat> {
    if w !in s.phase then {}
    else match s.phase[w]
      case SawHead(v) => {v}
      case SawDone(v) => {v}
      case Claimed(v) => {v}
      case Calling(v) => {v}
      case Called(v) => {v}
      case Deleting(v) => {v}
      case AfterDel(v) => {v}
      case Adding => {w}
      case Added => {w}
      case Linked => {w}
      case Waiting => {w}
      case Running => {w}
      case Ran => {w}
      case Leaving => if w in s.freeSelf then {w} else {}
      case _ => {}
  }

  // ---- The invariant ----

  predicate BeforeDone(p: Phase) {
    p.Adding? || p.Added? || p.Linked? || p.Waiting? || p.Running? || p.Ran?
  }

  predicate Owns(p: Phase) {
    p.Claimed? || p.Calling? || p.Called? || p.Deleting?
  }

  /** Has taken `v` off the list and still to dispose of it. */
  predicate MustFree(p: Phase, v: nat) {
    p == Deleted(v) || p == AfterDel(v)
  }

  /** Will look at the head of the list again. */
  predicate WillCheck(p: Phase) {
    p.Want? || p.Peek? || p.SawHead? || p.SawDone? || p.Deleted? || p.AfterDel?
  }

  /** Works come off the list in the order they were put on it. */
  ghost predicate ListOk(s: State) {
    && NoDup(s.queued) && s.queued == s.unlinked + s.list
    && (forall w :: w in Elems(s.queued) <==> w in s.phase && !s.phase[w].Adding?)
  }

  ghost predicate BitsOk(s: State) {
    && (forall w :: w in s.done <==> w in s.phase && !BeforeDone(s.phase[w]))
    && (forall w :: w in s.phase && (s.phase[w].Ran? || !BeforeDone(s.phase[w])) ==> w in s.finished)
    && Elems(s.unlinked) <= s.done
    && s.orderDone == Elems(s.unlinked) + (if s.claimer.Some? && s.list != [] then {s.list[0]} else {})
  }

  ghost predicate LockOk(s: State) {
    forall w :: w in s.phase && HoldsLock(s.phase[w]) <==> s.lock == Some(w)
  }

  /** What a worker knows about the work in its hands. */
  ghost predicate HandOk(s: State, p: Phase) {
    match p
    case SawHead(v) => s.list != [] && v == s.list[0]
    case SawDone(v) => s.list != [] && v == s.list[0] && v in s.done
    case Deleted(v) => v in Elems(s.unlinked) && v !in Elems(s.freed) && v !in s.freeSelf
    case AfterDel(v) => v in Elems(s.unlinked) && v !in Elems(s.freed) && v !in s.freeSelf
    case _ => true
  }

  ghost predicate HandsOk(s: State) {
    && (forall w :: w in s.phase ==> HandOk(s, s.phase[w]))
    && (forall w, x, v :: w in s.phase && x in s.phase && MustFree(s.phase[w], v) && MustFree(s.phase[x], v) ==> w == x)
  }

  /** The calls made are those for the works already off the list plus, while it is
      in progress, the head's. */
  ghost predicate CallsOk(s: State, p: Phase) {
    match p
    case Claimed(v) => s.list != [] && v == s.list[0] && s.begun == s.unlinked && s.ended == s.unlinked
    case Calling(v) => s.list != [] && v == s.list[0] && s.begun == s.unlinked + [v] && s.ended == s.unlinked
    case Called(v) => s.list != [] && v == s.list[0] && s.begun == s.unlinked + [v] && s.ended == s.begun
    case Deleting(v) => s.list != [] && v == s.list[0] && s.begun == s.unlinked + [v] && s.ended == s.begun
    case _ => false
  }

  /** At most one worker has the head of the list. */
  ghost predicate ClaimOk(s: State) {
    && (forall w :: w in s.phase && Owns(s.phase[w]) <==> s.claimer == Some(w))
    && (s.claimer.None? ==> s.begun == s.unlinked && s.ended == s.unlinked)
    && (s.claimer.Some? && s.claimer.value in s.phase ==>
          CallsOk(s, s.phase[s.claimer.value]) && s.list != [] && s.list[0] in s.done)
  }

  /** A work off the list has been freed, is about to be by whoever took it off, or
      waits for its own worker to leave. */
  ghost predicate FreeOk(s: State) {
    && NoDup(s.freed)
    && Elems(s.freed) <= Elems(s.unlinked)
    && (forall v :: v in s.freeSelf ==> v in Elems(s.unlinked) && v in s.phase && !BeforeDone(s.phase[v])
                                        && (v in Elems(s.freed) <==> s.phase[v].Gone?))
    && (forall v :: v in Elems(s.unlinked) && v !in Elems(s.freed) && v !in s.freeSelf ==>
          exists w :: w in s.phase && MustFree(s.phase[w], v))
  }

  ghost predicate HeadReady(s: State) {
    s.list != [] && s.list[0] in s.done && s.claimer == None
  }

  /** No completion is lost. */
  ghost predicate Watched(s: State) {
    HeadReady(s) ==> exists w :: w in s.phase && WillCheck(s.phase[w])
  }

  ghost predicate Inv(s: State) {
    ListOk(s) && BitsOk(s) && LockOk(s) && HandsOk(s) && ClaimOk(s) && FreeOk(s) && Watched(s)
  }

  // ---- Every step keeps it ----

  /** The worker of `w` is now at `p`; the workers of others have not moved. */
  predicate Moves(s: State, s': State, w: nat, p: Phase) {
    s'.phase == s.phase[w := p]
  }

  lemma LockMoves(s: State, s': State, w: nat, p: Phase)
    requires LockOk(s) && Moves(s, s', w, p)
    requires var had := w in s.phase && HoldsLock(s.phase[w]);
             || (s'.lock == s.lock && had == HoldsLock(p))
             || (s.lock == None && s'.lock == Some(w) && HoldsLock(p))
             || (had && s'.lock == None && !HoldsLock(p))
    ensures LockOk(s')
  {
    hide HoldsLock;
  }

  lemma ListMoves(s: State, s': State, w: nat, p: Phase)
    requires ListOk(s) && Moves(s, s', w, p) && !p.Adding? && w in s.phase
    requires s'.unlinked + s'.list == s'.queued
    requires if s.phase[w].Adding? then s'.queued == s.queued + [w] else s'.queued == s.queued
    ensures ListOk(s')
  {
    hide Elems, NoDup;
    Snoc(s.queued, w);
  }

  lemma BitsMoves(s: State, s': State, w: nat, p: Phase)
    requires BitsOk(s) && Moves(s, s', w, p)
    requires s'.done == if BeforeDone(p) then s.done else s.done + {w}
    requires w in s.phase && BeforeDone(p) ==> BeforeDone(s.phase[w])
    requires s.finished <= s'.finished && (p.Ran? || !BeforeDone(p) ==> w in s'.finished)
    requires Elems(s'.unlinked) <= s'.done
    requires s'.orderDone == Elems(s'.unlinked) + (if s'.claimer.Some? && s'.list != [] then {s'.list[0]} else {})
    ensures BitsOk(s')
  {
    hide Elems, BeforeDone;
  }

  /** Nobody else's hand is disturbed. */
  lemma HandsMoves(s: State, s': State, w: nat, p: Phase)
    requires HandsOk(s) && Moves(s, s', w, p) && HandOk(s', p) && s.done <= s'.done
    requires forall x :: x in s.phase && x != w && (s.phase[x].SawHead? || s.phase[x].SawDone?) ==>
               s.list == [] || (s'.list != [] && s'.list[0] == s.list[0])
    requires forall x, v :: x in s.phase && x != w && MustFree(s.phase[x], v) ==>
               !MustFree(p, v) && v in Elems(s'.unlinked) && v !in Elems(s'.freed) && v !in s'.freeSelf
    ensures HandsOk(s')
  {
    hide Elems;
    forall x | x in s'.phase ensures HandOk(s', s'.phase[x]) {
      if x != w { assert HandOk(s, s.phase[x]); }
    }
  }

  lemma ClaimMoves(s: State, s': State, w: nat, p: Phase)
    requires ClaimOk(s) && Moves(s, s', w, p) && w in s.phase
    requires s'.claimer == if Owns(p) then Some(w) else if Owns(s.phase[w]) then None else s.claimer
    requires Owns(p) && !Owns(s.phase[w]) ==> s.claimer == None
    requires Owns(p) ==> CallsOk(s', p) && s'.list[0] in s'.done
    requires Owns(s.phase[w]) && !Owns(p) ==> s'.begun == s'.unlinked && s'.ended == s'.unlinked
    requires !Owns(s.phase[w]) && !Owns(p) ==>
               && s'.begun == s.begun && s'.ended == s.ended && s'.unlinked == s.unlinked && s.done <= s'.done
               && (s.list != [] ==> s'.list != [] && s'.list[0] == s.list[0])
    ensures ClaimOk(s')
  {
    hide Owns;
  }

  lemma FreeMoves(s: State, s': State, w: nat, p: Phase)
    requires FreeOk(s) && Moves(s, s', w, p)
    requires w in s.phase && !BeforeDone(s.phase[w]) ==> !BeforeDone(p)
    requires NoDup(s'.freed) && Elems(s.freed) <= Elems(s'.freed) <= Elems(s'.unlinked)
    requires Elems(s.unlinked) <= Elems(s'.unlinked) && s.freeSelf <= s'.freeSelf
    requires forall v :: v in s'.freeSelf && v !in s.freeSelf ==> v == w && v in Elems(s'.unlinked) && !BeforeDone(p)
    requires w in s'.freeSelf ==> (w in Elems(s'.freed) <==> p.Gone?)
    requires forall v :: v in Elems(s'.freed) && v !in Elems(s.freed) ==> v == w || v !in s.freeSelf
    requires forall v :: v in Elems(s'.unlinked) && v !in Elems(s.unlinked) ==> MustFree(p, v)
    requires forall v :: w in s.phase && MustFree(s.phase[w], v) ==>
               MustFree(p, v) || v in Elems(s'.freed) || v in s'.freeSelf
    ensures FreeOk(s')
  {
    hide Elems, NoDup, MustFree, BeforeDone;
    forall v | v in s'.freeSelf
      ensures v in Elems(s'.unlinked) && v in s'.phase && !BeforeDone(s'.phase[v])
      ensures v in Elems(s'.freed) <==> s'.phase[v].Gone?
    {
    }
    forall v | v in Elems(s'.unlinked) && v !in Elems(s'.freed) && v !in s'.freeSelf
      ensures exists x :: x in s'.phase && MustFree(s'.phase[x], v)
    {
      if v in Elems(s.unlinked) {
        var x :| x in s.phase && MustFree(s.phase[x], v);
        assert x in s'.phase && MustFree(if x == w then p else s.phase[x], v);
      } else {
        assert w in s'.phase && MustFree(s'.phase[w], v);
      }
    }
  }

  lemma WatchMoves(s: State, s': State, w: nat, p: Phase)
    requires Watched(s) && Moves(s, s', w, p)
    requires WillCheck(p) || !HeadReady(s') || (HeadReady(s) && (w in s.phase ==> !WillCheck(s.phase[w])))
    ensures Watched(s')
  {
    hide WillCheck;
    if HeadReady(s') {
      if WillCheck(p) {
        assert w in s'.phase && WillCheck(s'.phase[w]);
      } else {
        var x :| x in s.phase && WillCheck(s.phase[x]);
        assert x in s'.phase && WillCheck(s'.phase[x]);
      }
    }
  }

  /** What the invariant says about one worker, and about the others' hands. */
  ghost predicate Known(s: State, w: nat) {
    && s.queued == s.unlinked + s.list
    && (w in s.phase ==>
          var p := s.phase[w];
          && HandOk(s, p) && (HoldsLock(p) ==> s.lock == Some(w))
          && (Owns(p) ==> CallsOk(s, p) && s.list[0] in s.done) && (Owns(p) <==> s.claimer == Some(w))
          && (w in s.done <==> !BeforeDone(p)) && (p.Ran? || !BeforeDone(p) ==> w in s.finished)
          && (w in s.freeSelf ==> (w in Elems(s.freed) <==> p.Gone?) && !BeforeDone(p))
          && forall x :: x in s.phase && HoldsLock(p) && HoldsLock(s.phase[x]) ==> x == w)
    && (w !in s.phase ==> w !in s.done && w !in s.freeSelf && s.claimer != Some(w) && w !in Elems(s.queued))
    && (s.claimer.Some? ==> s.list != [])
    && (s.claimer == None ==> s.begun == s.unlinked && s.ended == s.unlinked)
    && Elems(s.freed) <= Elems(s.unlinked) <= s.done && NoDup(s.freed) && s.freeSelf <= Elems(s.unlinked)
    && s.orderDone == Elems(s.unlinked) + (if s.claimer.Some? && s.list != [] then {s.list[0]} else {})
    && (s.list != [] ==> s.list[0] !in Elems(s.unlinked))
    && (forall x, v :: x in s.phase && MustFree(s.phase[x], v) ==>
          v in Elems(s.unlinked) && v !in Elems(s.freed) && v !in s.freeSelf)
    && (forall x, v :: x in s.phase && w in s.phase && MustFree(s.phase[x], v) && MustFree(s.phase[w], v) ==> x == w)
  }

  lemma Knows(s: State, w: nat)
    requires Inv(s)
    ensures Known(s, w)
  {
    hide FreeOk, Watched, ListOk, Elems, NoDup, BitsOk, BeforeDone;
    HeadNew(s);
    FreeParts(s);
    BitsParts(s, w);
    ListParts(s, w);
    assert forall x :: x in s.phase ==> HandOk(s, s.phase[x]);
  }

  lemma HeadNew(s: State)
    requires ListOk(s)
    ensures s.list != [] ==> s.list[0] !in Elems(s.unlinked)
  {
    forall i | 0 <= i < |s.unlinked| && s.list != [] ensures s.unlinked[i] != s.list[0] {
      assert s.queued[i] == s.unlinked[i] && s.queued[|s.unlinked|] == s.list[0];
    }
  }

  lemma ListParts(s: State, w: nat)
    requires ListOk(s)
    ensures s.queued == s.unlinked + s.list && (w in Elems(s.queued) <==> w in s.phase && !s.phase[w].Adding?)
  {
    hide Elems, NoDup;
  }

  lemma BitsParts(s: State, w: nat)
    requires BitsOk(s)
    ensures w in s.done <==> w in s.phase && !BeforeDone(s.phase[w])
    ensures w in s.phase && (s.phase[w].Ran? || !BeforeDone(s.phase[w])) ==> w in s.finished
    ensures Elems(s.unlinked) <= s.done
    ensures s.orderDone == Elems(s.unlinked) + (if s.claimer.Some? && s.list != [] then {s.list[0]} else {})
  {
    hide Elems, BeforeDone;
  }

  lemma FreeParts(s: State)
    requires FreeOk(s)
    ensures NoDup(s.freed) && Elems(s.freed) <= Elems(s.unlinked) && s.freeSelf <= Elems(s.unlinked)
    ensures forall v :: v in s.freeSelf ==> v in s.phase && !BeforeDone(s.phase[v])
                                            && (v in Elems(s.freed) <==> s.phase[v].Gone?)
  {
    hide Elems, NoDup, MustFree;
  }

  lemma NewWork(s: State, s': State, w: nat)
    requires ListOk(s) && ClaimOk(s) && w !in s.phase && s' == To(s, w, Adding).(lock := s'.lock)
    ensures ListOk(s') && ClaimOk(s')
  {
    hide Elems, NoDup;
  }

  lemma SubmitPlaces(s: State, w: nat)
    requires Inv(s) && Known(s, w)
    ensures var s' := Submit(s, w); LockOk(s') && ListOk(s') && BitsOk(s') && ClaimOk(s')
  {
    hide ListOk, BitsOk, LockOk, HandsOk, ClaimOk, FreeOk, Watched, Elems, NoDup, MustFree, WillCheck;
    var s' := Submit(s, w);
    if s' != s {
      var p := s'.phase[w];
      LockMoves(s, s', w, p);
      BitsMoves(s, s', w, p);
      if w in s.phase {
        ListMoves(s, s', w, p);
        ClaimMoves(s, s', w, p);
      } else {
        NewWork(s, s', w);
      }
    }
  }

  lemma SubmitRest(s: State, w: nat)
    requires HandsOk(s) && FreeOk(s) && Watched(s) && Known(s, w)
    ensures var s' := Submit(s, w); HandsOk(s') && FreeOk(s') && Watched(s')
  {
    hide HandsOk, FreeOk, Watched, Elems, NoDup;
    var s' := Submit(s, w);
    if s' != s {
      var p := s'.phase[w];
      HandsMoves(s, s', w, p);
      FreeMoves(s, s', w, p);
      WatchMoves(s, s', w, p);
    }
  }

  lemma SubmitKeeps(s: State, w: nat)
    requires Inv(s)
    ensures Inv(Submit(s, w))
  {
    hide ListOk, BitsOk, LockOk, HandsOk, ClaimOk, FreeOk, Watched, Known, Submit;
    Knows(s, w);
    SubmitPlaces(s, w);
    SubmitRest(s, w);
  }

  lemma ExecutePlaces(s: State, w: nat)
    requires Inv(s) && Known(s, w) && w in s.phase
    ensures var s' := Execute(s, w); LockOk(s') && ListOk(s') && BitsOk(s') && ClaimOk(s')
  {
    hide ListOk, BitsOk, LockOk, HandsOk, ClaimOk, FreeOk, Watched, Elems, NoDup, MustFree, WillCheck;
    var s' := Execute(s, w);
    if s' != s {
      var p := s'.phase[w];
      LockMoves(s, s', w, p);
      BitsMoves(s, s', w, p);
      ListMoves(s, s', w, p);
      ClaimMoves(s, s', w, p);
    }
  }

  lemma ExecuteRest(s: State, w: nat)
    requires HandsOk(s) && FreeOk(s) && Watched(s) && Known(s, w) && w in s.phase
    ensures var s' := Execute(s, w); HandsOk(s') && FreeOk(s') && Watched(s')
  {
    hide HandsOk, FreeOk, Watched, Elems, NoDup;
    var s' := Execute(s, w);
    if s' != s {
      var p := s'.phase[w];
      HandsMoves(s, s', w, p);
      FreeMoves(s, s', w, p);
      WatchMoves(s, s', w, p);
    }
  }

  lemma ExecuteKeeps(s: State, w: nat)
    requires Inv(s) && w in s.phase
    ensures Inv(Execute(s, w))
  {
    hide ListOk, BitsOk, LockOk, HandsOk, ClaimOk, FreeOk, Watched, Known, Execute;
    Knows(s, w);
    ExecutePlaces(s, w);
    ExecuteRest(s, w);
  }

  lemma LeavePlaces(s: State, w: nat)
    requires Inv(s) && Known(s, w) && w in s.phase
    ensures var s' := Leave(s, w); LockOk(s') && ListOk(s') && BitsOk(s') && ClaimOk(s')
  {
    hide ListOk, BitsOk, LockOk, HandsOk, ClaimOk, FreeOk, Watched, Elems, NoDup, MustFree, WillCheck;
    var s' := Leave(s, w);
    if s' != s {
      var p := s'.phase[w];
      LockMoves(s, s', w, p);
      BitsMoves(s, s', w, p);
      ListMoves(s, s', w, p);
      ClaimMoves(s, s', w, p);
    }
  }

  lemma LeaveRest(s: State, w: nat)
    requires HandsOk(s) && FreeOk(s) && Watched(s) && Known(s, w) && w in s.phase
    ensures var s' := Leave(s, w); HandsOk(s') && FreeOk(s') && Watched(s')
  {
    hide HandsOk, FreeOk, Watched, Elems, NoDup;
    Snoc(s.freed, w);
    var s' := Leave(s, w);
    if s' != s {
      var p := s'.phase[w];
      HandsMoves(s, s', w, p);
      FreeMoves(s, s', w, p);
      WatchMoves(s, s', w, p);
    }
  }

  lemma LeaveKeeps(s: State, w: nat)
    requires Inv(s) && w in s.phase
    ensures Inv(Leave(s, w))
  {
    hide ListOk, BitsOk, LockOk, HandsOk, ClaimOk, FreeOk, Watched, Known, Leave;
    Knows(s, w);
    LeavePlaces(s, w);
    LeaveRest(s, w);
  }

  lemma LookPlaces(s: State, w: nat)
    requires Inv(s) && Known(s, w) && w in s.phase
    ensures var s' := Look(s, w); LockOk(s') && ListOk(s') && BitsOk(s') && ClaimOk(s')
  {
    hide ListOk, BitsOk, LockOk, HandsOk, ClaimOk, FreeOk, Watched, Elems, NoDup, MustFree, WillCheck;
    var s' := Look(s, w);
    if s' != s {
      var p := s'.phase[w];
      LockMoves(s, s', w, p);
      ListMoves(s, s', w, p);
      BitsMoves(s, s', w, p);
      ClaimMoves(s, s', w, p);
    }
  }

  lemma LookHands(s: State, w: nat)
    requires HandsOk(s) && Known(s, w) && w in s.phase
    ensures HandsOk(Look(s, w))
  {
    hide HandsOk, Elems, NoDup, WillCheck, BeforeDone;
    var s' := Look(s, w);
    if s' != s {
      var p := s'.phase[w];
      forall x, v | x in s.phase && x != w && MustFree(s.phase[x], v)
        ensures !MustFree(p, v) && v in Elems(s'.unlinked) && v !in Elems(s'.freed) && v !in s'.freeSelf
      {
        assert !MustFree(s.phase[w], v);
      }
      HandsMoves(s, s', w, p);
    }
  }

  lemma LookFree(s: State, w: nat)
    requires FreeOk(s) && Watched(s) && Known(s, w) && w in s.phase
    ensures FreeOk(Look(s, w)) && Watched(Look(s, w))
  {
    hide FreeOk, Watched, Elems, NoDup;
    var s' := Look(s, w);
    if s' != s {
      FreeMoves(s, s', w, s'.phase[w]);
      WatchMoves(s, s', w, s'.phase[w]);
    }
  }

  lemma CallKeeps(s: State, w: nat)
    requires Inv(s) && w in s.phase
    ensures Inv(Call(s, w))
  {
    hide ListOk, BitsOk, LockOk, HandsOk, ClaimOk, FreeOk, Watched, Elems, NoDup;
    Knows(s, w);
    var s' := Call(s, w);
    if s' != s {
      var p := s'.phase[w];
      LockMoves(s, s', w, p);
      ListMoves(s, s', w, p);
      BitsMoves(s, s', w, p);
      HandsMoves(s, s', w, p);
      ClaimMoves(s, s', w, p);
      FreeMoves(s, s', w, p);
      WatchMoves(s, s', w, p);
    }
  }

  lemma DropPlaces(s: State, w: nat)
    requires Inv(s) && Known(s, w) && w in s.phase
    ensures var s' := Drop(s, w); LockOk(s') && ListOk(s') && BitsOk(s') && ClaimOk(s')
  {
    hide ListOk, BitsOk, LockOk, HandsOk, ClaimOk, FreeOk, Watched, Elems, NoDup, MustFree, WillCheck;
    if s.list != [] { Snoc(s.unlinked, s.list[0]); }
    var s' := Drop(s, w);
    if s' != s {
      var p := s'.phase[w];
      LockMoves(s, s', w, p);
      ListMoves(s, s', w, p);
      BitsMoves(s, s', w, p);
      ClaimMoves(s, s', w, p);
    }
  }

  lemma DropHands(s: State, w: nat)
    requires HandsOk(s) && Known(s, w) && w in s.phase
    ensures HandsOk(Drop(s, w))
  {
    hide HandsOk, Elems, NoDup, WillCheck, BeforeDone;
    if s.list != [] { Snoc(s.unlinked, s.list[0]); }
    if s.phase[w].AfterDel? { Snoc(s.freed, s.phase[w].v); }
    var s' := Drop(s, w);
    if s' != s {
      var p := s'.phase[w];
      forall x, v | x in s.phase && x != w && MustFree(s.phase[x], v)
        ensures !MustFree(p, v) && v in Elems(s'.unlinked) && v !in Elems(s'.freed) && v !in s'.freeSelf
      {
        assert !MustFree(s.phase[w], v);
      }
      HandsMoves(s, s', w, p);
    }
  }

  lemma DropFree(s: State, w: nat)
    requires FreeOk(s) && Watched(s) && Known(s, w) && w in s.phase
    ensures FreeOk(Drop(s, w)) && Watched(Drop(s, w))
  {
    hide FreeOk, Watched, Elems, NoDup;
    if s.list != [] { Snoc(s.unlinked, s.list[0]); }
    if s.phase[w].AfterDel? { Snoc(s.freed, s.phase[w].v); }
    var s' := Drop(s, w);
    if s' != s {
      FreeMoves(s, s', w, s'.phase[w]);
      WatchMoves(s, s', w, s'.phase[w]);
    }
  }

  /** Every step of every worker keeps the invariant. */
  lemma StepKeeps(s: State, w: nat)
    requires Inv(s)
    ensures Inv(Step(s, w))
  {
    hide ListOk, BitsOk, LockOk, HandsOk, ClaimOk, FreeOk, Watched, Submit, Execute, Look, Leave, Call, Drop;
    SubmitKeeps(s, w);
    if w in s.phase {
      Knows(s, w);
      ExecuteKeeps(s, w);
      LookPlaces(s, w);
      LookHands(s, w);
      LookFree(s, w);
      LeaveKeeps(s, w);
      CallKeeps(s, w);
      DropPlaces(s, w);
      DropHands(s, w);
      DropFree(s, w);
    }
  }

  lemma {:induction false} RunKeeps(schedule: seq<nat>)
    ensures Inv(Run(schedule))
  {
    hide Inv, Step;
    if schedule == [] {
      StartOk();
    } else {
      RunKeeps(schedule[..|schedule|-1]);
      StepKeeps(Run(schedule[..|schedule|-1]), schedule[|schedule|-1]);
    }
  }

  lemma StartOk()
    ensures Inv(START)
  {
  }

  // ---- What holds over every schedule ----

  /** Ordered functions are called in exactly the order the works were queued, each
      once, one at a time, and only after the work's own function has finished. */
  lemma CallsInOrder(schedule: seq<nat>)
    ensures var s := Run(schedule);
            && NoDup(s.queued) && s.begun <= s.queued && s.ended <= s.begun && |s.begun| <= |s.ended| + 1
            && forall v :: v in s.begun ==> v in s.finished
  {
    hide Run, HandsOk, LockOk, FreeOk, Watched, HandOk;
    RunKeeps(schedule);
    var s := Run(schedule);
    forall v | v in s.begun ensures v in s.finished {
      assert v in Elems(s.unlinked) || (s.list != [] && v == s.list[0]);
    }
  }

  /** The moment an ordered function is called: no other call is in progress, the
      work is the next one in queue order, and its own function is done. */
  lemma CallBegins(schedule: seq<nat>, w: nat)
    ensures var s, s' := Run(schedule), Step(Run(schedule), w);
            s'.begun != s.begun ==>
              && s.begun == s.ended && |s.begun| < |s.queued| && s.queued[|s.begun|] in s.finished
              && s'.begun == s.begun + [s.queued[|s.begun|]]
  {
    hide Run, HandsOk, LockOk, FreeOk, Watched, HandOk, ListOk, BitsOk, ClaimOk, Elems, NoDup;
    RunKeeps(schedule);
    var s := Run(schedule);
    Knows(s, w);
    if w in s.phase && s.phase[w].Claimed? { BitsParts(s, s.list[0]); }
  }

  /** No completion is lost: while the head of the list is done and unclaimed some
      worker has still to look at the list. */
  lemma NothingLost(schedule: seq<nat>)
    ensures var s := Run(schedule);
            s.list != [] && s.list[0] in s.done && s.list[0] !in s.orderDone ==>
              exists w :: w in s.phase && WillCheck(s.phase[w])
  {
    hide Run, HandsOk, LockOk, FreeOk, HandOk, ListOk;
    RunKeeps(schedule);
  }

  /** Once every worker is gone the list is empty, every work's ordered function has
      been called, in order, and every work has been freed exactly once. */
  lemma Quiescent(schedule: seq<nat>)
    requires forall w :: w in Run(schedule).phase ==> Run(schedule).phase[w].Gone?
    ensures var s := Run(schedule);
            && s.list == [] && s.begun == s.queued && s.ended == s.queued
            && NoDup(s.freed) && Elems(s.freed) == Elems(s.queued) == s.phase.Keys
  {
    hide Run, HandOk, Elems, NoDup;
    RunKeeps(schedule);
    var s := Run(schedule);
    if s.list != [] {
      ListParts(s, s.list[0]);
      HeadQueued(s);
    }
    assert s.unlinked + [] == s.unlinked;
  }

  lemma HeadQueued(s: State)
    requires s.queued == s.unlinked + s.list && s.list != []
    ensures s.list[0] in Elems(s.queued)
  {
    assert s.queued[|s.unlinked|] == s.list[0];
  }

  /** A work is freed at most once, only after it has left the list, and nobody
      reads or writes a work that has been freed. */
  lemma NoUseAfterFree(schedule: seq<nat>, w: nat)
    ensures var s := Run(schedule);
            NoDup(s.freed) && Elems(s.freed) <= Elems(s.unlinked) && Touched(s, w) !! Elems(s.freed)
            && Elems(s.list) !! Elems(s.freed)
  {
    hide Run, HandsOk, LockOk, FreeOk, Watched, ListOk, BitsOk, ClaimOk, Elems, NoDup;
    RunKeeps(schedule);
    Knows(Run(schedule), w);
    ListFresh(Run(schedule));
  }

  lemma ListFresh(s: State)
    requires Inv(s)
    ensures Elems(s.list) !! Elems(s.unlinked)
  {
    hide HandsOk, LockOk, FreeOk, Watched, BitsOk, ClaimOk;
    forall i, j | 0 <= i < |s.unlinked| && 0 <= j < |s.list| ensures s.unlinked[i] != s.list[j] {
      assert s.queued[i] == s.unlinked[i] && s.queued[|s.unlinked| + j] == s.list[j];
    }
  }

  /** A worker that frees its own work does so as its last act; until then a work
      its own worker has processed is not freed by anybody. */
  lemma SelfFreedLast(schedule: seq<nat>, w: nat)
    ensures var s, s' := Run(schedule), Step(Run(schedule), w);
            && (s'.freed == s.freed + [w] ==> w in s'.phase && s'.phase[w].Gone? && Step(s', w) == s')
            && (w in s.freeSelf ==> w in s.phase && (w in Elems(s.freed) <==> s.phase[w].Gone?))
  {
    hide Run, HandsOk, LockOk, FreeOk, Watched, ListOk, BitsOk, ClaimOk, Elems, NoDup;
    RunKeeps(schedule);
    var s := Run(schedule);
    Knows(s, w);
    assert forall v :: s.freed + [v] == s.freed + [w] ==> (s.freed + [v])[|s.freed|] == (s.freed + [w])[|s.freed|];
  }

  /** While a worker is left, some worker can move. */
  lemma NoDeadlock(schedule: seq<nat>, w: nat)
    requires w in Run(schedule).phase && !Run(schedule).phase[w].Gone?
    ensures exists x :: x in Run(schedule).phase && Step(Run(schedule), x) != Run(schedule)
  {
    hide Run, Inv, Step;
    RunKeeps(schedule);
    var x := SomeoneMoves(Run(schedule), w);
  }

  lemma SomeoneMoves(s: State, w: nat) returns (x: nat)
    requires Inv(s) && w in s.phase && !s.phase[w].Gone?
    ensures x in s.phase && Step(s, x) != s
  {
    hide HandsOk, FreeOk, Watched, ListOk, BitsOk, ClaimOk;
    x := if s.lock.Some? then s.lock.value else w;
    assert x in s.phase;
    CanMove(s, x);
  }

  lemma CanMove(s: State, x: nat)
    requires x in s.phase && !s.phase[x].Gone? && (s.lock == None || HoldsLock(s.phase[x]))
    ensures Step(s, x) != s
  {
    assert Step(s, x).phase[x] != s.phase[x];
  }

  // ---- Every run ends ----

  /** The works submitted so far. */
  function Works(schedule: seq<nat>): seq<nat> {
    if schedule == [] then []
    else
      var before, w := schedule[..|schedule|-1], schedule[|schedule|-1];
      if w !in Run(before).phase && w in Run(schedule).phase then Works(before) + [w] else Works(before)
  }

  /** The steps of a schedule that were not spent waiting. */
  function Moved(schedule: seq<nat>): nat {
    if schedule == [] then 0
    else
      var before := schedule[..|schedule|-1];
      Moved(before) + if Run(schedule) != Run(before) then 1 else 0
  }

  /** Phases in the order they come, except that taking a work off the list leads
      back up, to another round of the loop. */
  function Rank(p: Phase): nat {
    match p
    case Adding => 19
    case Added => 18
    case Linked => 17
    case Waiting => 16
    case Running => 15
    case Ran => 14
    case Deleted(_) => 13
    case AfterDel(_) => 12
    case Want => 11
    case Peek => 10
    case SawHead(_) => 9
    case SawDone(_) => 8
    case Claimed(_) => 7
    case Calling(_) => 6
    case Called(_) => 5
    case Deleting(_) => 4
    case Breaking => 2
    case Leaving => 1
    case Gone => 0
  }

  function Ranks(ws: seq<nat>, phase: map<nat, Phase>): nat {
    if ws == [] then 0 else (if ws[0] in phase then Rank(phase[ws[0]]) else 0) + Ranks(ws[1..], phase)
  }

  /** What is left to do: each work still has to come off the list, which costs one
      worker another round, and each worker has to get to its end. */
  function Left(s: State, ws: seq<nat>): int { 10 * (|ws| - |s.unlinked|) + Ranks(ws, s.phase) }

  lemma {:induction false} RanksSame(ws: seq<nat>, phase: map<nat, Phase>, w: nat, p: Phase)
    requires w !in ws
    ensures Ranks(ws, phase[w := p]) == Ranks(ws, phase)
  {
    hide Rank;
    if ws != [] { RanksSame(ws[1..], phase, w, p); }
  }

  lemma {:induction false} RanksMove(ws: seq<nat>, phase: map<nat, Phase>, w: nat, p: Phase)
    requires NoDup(ws) && w in ws && w in phase
    ensures Ranks(ws, phase[w := p]) == Ranks(ws, phase) - Rank(phase[w]) + Rank(p)
  {
    hide Rank, NoDup;
    NoDupRest(ws);
    if ws[0] == w {
      RanksSame(ws[1..], phase, w, p);
    } else {
      RanksMove(ws[1..], phase, w, p);
    }
  }

  lemma NoDupRest(ws: seq<nat>)
    requires NoDup(ws) && ws != []
    ensures NoDup(ws[1..]) && ws[0] !in ws[1..]
  {
  }

  lemma {:induction false} RanksSnoc(ws: seq<nat>, phase: map<nat, Phase>, w: nat)
    requires w in phase
    ensures Ranks(ws + [w], phase) == Ranks(ws, phase) + Rank(phase[w])
  {
    hide Rank;
    if ws == [] {
      assert [w][1..] == [];
      assert ws + [w] == [w];
    } else {
      RanksSnoc(ws[1..], phase, w);
      assert (ws + [w])[1..] == ws[1..] + [w];
    }
  }

  /** Only `w` has moved on, and if it was back up a work has come off the list. */
  ghost predicate Lower(s: State, s': State, w: nat) {
    && w in s.phase && w in s'.phase && s'.phase == s.phase[w := s'.phase[w]]
    && Rank(s'.phase[w]) + 10 * |s.unlinked| < Rank(s.phase[w]) + 10 * |s'.unlinked|
  }

  lemma SubmitLowers(s: State, w: nat)
    requires w in s.phase
    ensures Submit(s, w) == s || Lower(s, Submit(s, w), w)
  {
  }

  lemma ExecuteLowers(s: State, w: nat)
    requires w in s.phase
    ensures Execute(s, w) == s || Lower(s, Execute(s, w), w)
  {
  }

  lemma LookLowers(s: State, w: nat)
    requires w in s.phase
    ensures Look(s, w) == s || Lower(s, Look(s, w), w)
  {
  }

  lemma CallLowers(s: State, w: nat)
    requires w in s.phase
    ensures Call(s, w) == s || Lower(s, Call(s, w), w)
  {
  }

  lemma DropLowers(s: State, w: nat)
    requires w in s.phase
    ensures Drop(s, w) == s || Lower(s, Drop(s, w), w)
  {
    hide Without;
  }

  lemma LeaveLowers(s: State, w: nat)
    requires w in s.phase
    ensures Leave(s, w) == s || Lower(s, Leave(s, w), w)
  {
  }

  lemma IsLower(s: State, w: nat)
    requires w in s.phase && Step(s, w) != s
    ensures Lower(s, Step(s, w), w)
  {
    hide Lower, Submit, Execute, Look, Call, Drop, Leave;
    SubmitLowers(s, w);
    ExecuteLowers(s, w);
    LookLowers(s, w);
    CallLowers(s, w);
    DropLowers(s, w);
    LeaveLowers(s, w);
  }

  /** A step that is not spent waiting, by a work already submitted, leaves less to
      do. */
  lemma StepLowers(s: State, w: nat, ws: seq<nat>)
    requires w in s.phase && NoDup(ws) && Elems(ws) == s.phase.Keys && Step(s, w) != s
    ensures Step(s, w).phase.Keys == s.phase.Keys && Left(Step(s, w), ws) < Left(s, ws)
  {
    hide NoDup, Elems, Ranks, Rank, Step;
    IsLower(s, w);
    InElems(ws, w);
    RanksMove(ws, s.phase, w, Step(s, w).phase[w]);
  }

  lemma InElems(ws: seq<nat>, w: nat)
    ensures w in Elems(ws) <==> w in ws
  {
  }

  lemma {:induction false} ElemsSize(ws: seq<nat>)
    requires NoDup(ws)
    ensures |Elems(ws)| == |ws|
  {
    if ws != [] {
      var n := |ws| - 1;
      ElemsSize(ws[..n]);
      assert ws == ws[..n] + [ws[n]];
      Snoc(ws[..n], ws[n]);
    }
  }

  lemma SubsetSize(a: set<nat>, b: set<nat>)
    requires a <= b
    ensures |a| <= |b|
  {
    assert b == a + (b - a);
  }

  lemma LeftPositive(s: State, ws: seq<nat>)
    requires Inv(s) && NoDup(ws) && Elems(ws) == s.phase.Keys
    ensures Left(s, ws) >= 0
  {
    hide HandsOk, LockOk, FreeOk, Watched, BitsOk, ClaimOk, Ranks, Elems, NoDup;
    ElemsSize(ws);
    ElemsSize(s.queued);
    SubsetSize(Elems(s.queued), Elems(ws));
  }

  lemma {:induction false} WorksAre(schedule: seq<nat>)
    ensures NoDup(Works(schedule)) && Elems(Works(schedule)) == Run(schedule).phase.Keys
  {
    hide NoDup, Elems, Step;
    if schedule == [] {
      NoWorks();
    } else {
      var before, w := schedule[..|schedule|-1], schedule[|schedule|-1];
      WorksAre(before);
      var s, ws := Run(before), Works(before);
      if Step(s, w) != s {
        if w in s.phase { StepLowers(s, w, ws); } else { FirstStep(s, w); }
      }
      Snoc(ws, w);
    }
  }

  lemma NoWorks()
    ensures NoDup<nat>([]) && Elems<nat>([]) == {}
  {
  }

  /** The first step of a work is its submission. */
  lemma FirstStep(s: State, w: nat)
    requires w !in s.phase && Step(s, w) != s
    ensures Step(s, w) == To(s, w, Adding).(lock := Some(w))
  {
  }

  /** However the works are interleaved, at most thirty steps per work are made
      that are not spent waiting. */
  lemma {:induction false} BoundedWork(schedule: seq<nat>)
    ensures Moved(schedule) + Left(Run(schedule), Works(schedule)) <= 30 * |Works(schedule)|
    ensures Moved(schedule) <= 30 * |Works(schedule)|
  {
    hide Inv, Step, Elems, NoDup, Ranks;
    if schedule == [] {
      NoRanks();
    } else {
      var before, w := schedule[..|schedule|-1], schedule[|schedule|-1];
      BoundedWork(before);
      WorksAre(before);
      var s, ws := Run(before), Works(before);
      if w in s.phase {
        if Step(s, w) != s { StepLowers(s, w, ws); }
      } else if Step(s, w) != s {
        FirstStep(s, w);
        InElems(ws, w);
        RanksSame(ws, s.phase, w, Adding);
        RanksSnoc(ws, Run(schedule).phase, w);
      }
    }
    RunKeeps(schedule);
    WorksAre(schedule);
    LeftPositive(Run(schedule), Works(schedule));
  }

  lemma NoRanks()
    ensures Left(START, []) == 0
  {
  }

  function RunFrom(s: State, steps: seq<nat>): State
    decreases |steps|
  {
    if steps == [] then s else RunFrom(Step(s, steps[0]), steps[1..])
  }

  lemma {:induction false} RunConcat(a: seq<nat>, b: seq<nat>)
    ensures Run(a + b) == RunFrom(Run(a), b)
    decreases |b|
  {
    hide Step;
    if b == [] {
      assert a + b == a;
    } else {
      RunConcat(a + [b[0]], b[1..]);
      assert a + [b[0]] + b[1..] == a + b;
      assert (a + [b[0]])[..|a|] == a;
    }
  }

  /** Steps of works already submitted: nothing more is left to do, and less if one
      of those that could move gets its turn. */
  lemma {:induction false} TurnsLower(s: State, turns: seq<nat>, ws: seq<nat>, x: nat)
    requires Inv(s) && NoDup(ws) && Elems(ws) == s.phase.Keys && Elems(turns) <= s.phase.Keys
    ensures var s' := RunFrom(s, turns);
            && Inv(s') && s'.phase.Keys == s.phase.Keys && Left(s', ws) <= Left(s, ws)
            && (x in turns && Step(s, x) != s ==> Left(s', ws) < Left(s, ws))
    decreases |turns|
  {
    hide Inv, Step, Elems, NoDup, Left;
    if turns != [] {
      var w, rest := turns[0], turns[1..];
      InElems(turns, w);
      SubElems(turns);
      StepKeeps(s, w);
      if Step(s, w) != s { StepLowers(s, w, ws); }
      TurnsLower(Step(s, w), rest, ws, x);
    }
  }

  lemma SubElems(ws: seq<nat>)
    requires ws != []
    ensures Elems(ws[1..]) <= Elems(ws)
  {
  }

  ghost predicate AllGone(s: State) { forall w :: w in s.phase ==> s.phase[w].Gone? }

  lemma {:induction false} RankCounts(ws: seq<nat>, phase: map<nat, Phase>, w: nat)
    requires w in ws && w in phase
    ensures Ranks(ws, phase) >= Rank(phase[w])
  {
    hide Rank;
    if ws[0] != w { RankCounts(ws[1..], phase, w); }
  }

  /** While a worker is left there is something left to do. */
  lemma SomethingLeft(s: State, ws: seq<nat>, w: nat)
    requires Inv(s) && NoDup(ws) && Elems(ws) == s.phase.Keys && w in s.phase && !s.phase[w].Gone?
    ensures Left(s, ws) > 0
  {
    hide HandsOk, LockOk, FreeOk, Watched, BitsOk, ClaimOk, Ranks, Elems, NoDup;
    ElemsSize(ws);
    ElemsSize(s.queued);
    SubsetSize(Elems(s.queued), Elems(ws));
    InElems(ws, w);
    RankCounts(ws, s.phase, w);
  }

  lemma {:induction false} FromConcat(s: State, a: seq<nat>, b: seq<nat>)
    ensures RunFrom(s, a + b) == RunFrom(RunFrom(s, a), b)
    decreases |a|
  {
    hide Step;
    if a == [] {
      assert a + b == b;
    } else {
      FromConcat(Step(s, a[0]), a[1..], b);
      assert (a + b)[1..] == a[1..] + b;
    }
  }

  lemma {:induction false} GoneStays(s: State, turns: seq<nat>)
    requires AllGone(s) && Elems(turns) <= s.phase.Keys
    ensures RunFrom(s, turns) == s
  {
    hide Elems;
    if turns != [] {
      InElems(turns, turns[0]);
      SubElems(turns);
      GoneStays(s, turns[1..]);
    }
  }

  function Joined(rounds: seq<seq<nat>>): seq<nat> {
    if rounds == [] then [] else rounds[0] + Joined(rounds[1..])
  }

  lemma {:induction false} JoinedElems(rounds: seq<seq<nat>>, all: set<nat>)
    requires forall i :: 0 <= i < |rounds| ==> Elems(rounds[i]) == all
    ensures Elems(Joined(rounds)) <= all
  {
    if rounds != [] { JoinedElems(rounds[1..], all); }
  }

  /** After as many rounds as there is left to do, each of which gives every work a
      turn, everybody is gone. */
  lemma {:induction false} RoundsEnd(s: State, rounds: seq<seq<nat>>, ws: seq<nat>)
    requires Inv(s) && NoDup(ws) && Elems(ws) == s.phase.Keys && |rounds| >= Left(s, ws)
    requires forall i :: 0 <= i < |rounds| ==> Elems(rounds[i]) == s.phase.Keys
    ensures AllGone(RunFrom(s, Joined(rounds)))
    decreases |rounds|
  {
    hide Inv, Step, Elems, NoDup, Left, RunFrom;
    if AllGone(s) {
      JoinedElems(rounds, s.phase.Keys);
      GoneStays(s, Joined(rounds));
    } else {
      var w :| w in s.phase && !s.phase[w].Gone?;
      SomethingLeft(s, ws, w);
      var x := SomeoneMoves(s, w);
      InElems(rounds[0], x);
      TurnsLower(s, rounds[0], ws, x);
      RoundsEnd(RunFrom(s, rounds[0]), rounds[1..], ws);
      FromConcat(s, rounds[0], Joined(rounds[1..]));
    }
  }

  /** Every fair run ends: from any reachable state, once the works submitted have
      had enough rounds, in each of which every one gets a turn in any order and
      any number of times, all ordered functions have been called in order and
      all works have been freed once. */
  lemma FairRunsEnd(schedule: seq<nat>, rounds: seq<seq<nat>>)
    requires forall i :: 0 <= i < |rounds| ==> Elems(rounds[i]) == Run(schedule).phase.Keys
    requires |rounds| >= 30 * |Works(schedule)|
    ensures var s := Run(schedule + Joined(rounds));
            && AllGone(s) && s.list == [] && s.begun == s.queued && s.ended == s.queued
            && NoDup(s.freed) && Elems(s.freed) == Elems(s.queued) == s.phase.Keys == Run(schedule).phase.Keys
  {
    hide Run, Inv, Elems, NoDup, Left, Works, RunFrom, Joined;
    RunKeeps(schedule);
    WorksAre(schedule);
    BoundedWork(schedule);
    var s, ws, turns := Run(schedule), Works(schedule), Joined(rounds);
    RoundsEnd(s, rounds, ws);
    JoinedElems(rounds, s.phase.Keys);
    TurnsLower(s, turns, ws, 0);
    RunConcat(schedule, turns);
    Quiescent(schedule + turns);
  }
}
