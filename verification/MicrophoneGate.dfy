/** The client's microphone gate: immediate calls racing a serialized queue of mute and unmute operations. */
module MicrophoneGate {

  /** Where the running queue entry is suspended; effective says whether the SDK call has already acted. */
  datatype Phase = Idle | Unmuting(effective: bool) | Muting(effective: bool)

  /** enabled and live describe the attached track; both are false while there is none. */
  datatype Gate = Gate(wanted: bool, disposed: bool, attached: bool, enabled: bool, live: bool, waiting: nat,
                       phase: Phase)

  datatype Event =
    | Attach(live: bool)   // attach(track)
    | Set(enabled: bool)   // set(enabled)
    | Dispose              // dispose()
    | Start                // the next queue entry runs up to its first await
    | Effect               // the pending SDK call acts on the track
    | Resolve              // the pending SDK call resolves and its continuation runs
    | Reject               // the pending SDK call rejects without having acted

  const INITIAL := Gate(false, false, false, false, false, 0, Idle)

  /** One track is attached at most once; the queue steps need something to work on. */
  predicate Possible(g: Gate, e: Event) {
    match e
    case Attach(_) => !g.attached
    case Set(_) => true
    case Dispose => true
    case Start => g.waiting > 0 && g.phase == Idle
    case Effect => g.phase == Unmuting(false) || g.phase == Muting(false)
    case Resolve => g.phase == Unmuting(true) || g.phase == Muting(true)
    case Reject => g.phase == Unmuting(false) || g.phase == Muting(false)
  }

  function Next(g: Gate, e: Event): Gate
    requires Possible(g, e)
  {
    match e
    case Attach(live) => if g.disposed then g else g.(attached := true, enabled := false, live := live)
    case Set(enabled) =>
      var wanted := enabled && !g.disposed;
      g.(wanted := wanted, enabled := g.enabled && wanted, waiting := g.waiting + 1)
    case Dispose => g.(disposed := true, wanted := false, enabled := false, live := false)
    case Start =>
      var h := g.(waiting := g.waiting - 1);
      if !g.attached || g.disposed then h
      else if g.wanted then h.(phase := Unmuting(false))
      else h.(enabled := false, phase := Muting(false))
    case Effect =>
      if g.phase.Unmuting? then g.(enabled := true, live := true, phase := Unmuting(true))
      else g.(enabled := false, phase := Muting(true))
    case Resolve =>
      if g.phase.Muting? then g.(phase := Idle)
      else if g.disposed then g.(enabled := false, live := false, phase := Idle)
      else if !g.wanted then g.(enabled := false, phase := Muting(false))
      else g.(phase := Idle)
    case Reject => g.(phase := Idle)
  }

  /** Every interleaving: a sequence of events, each possible when it happens. */
  predicate IsRun(run: seq<Event>)
    decreases |run|, 0
  {
    run == [] || (IsRun(run[..|run| - 1]) && Possible(After(run[..|run| - 1]), run[|run| - 1]))
  }

  function After(run: seq<Event>): Gate
    requires IsRun(run)
    decreases |run|, 1
  {
    if run == [] then INITIAL else Next(After(run[..|run| - 1]), run[|run| - 1])
  }

  /** The argument of the last set call. */
  function LastSet(run: seq<Event>): bool {
    if run == [] then false
    else if run[|run| - 1].Set? then run[|run| - 1].enabled
    else LastSet(run[..|run| - 1])
  }

  predicate Disposed(run: seq<Event>) {
    Dispose in run
  }

  predicate Drained(g: Gate) {
    g.waiting == 0 && g.phase == Idle
  }

  /** While no unmute has acted unobserved, the gate is open only for a wanted, undisposed press. */
  ghost predicate Inv(g: Gate) {
    && (g.disposed ==> !g.wanted)
    && (g.enabled ==> g.wanted || g.phase == Unmuting(true))
    && (g.disposed && g.live ==> g.phase == Unmuting(true))
    && (!g.attached ==> !g.enabled && !g.live && g.phase == Idle)
  }

  lemma {:induction false} RunInv(run: seq<Event>)
    requires IsRun(run)
    ensures Inv(After(run))
    ensures After(run).wanted <==> LastSetIsLive(run)
    ensures After(run).disposed <==> Disposed(run)
  {
    if run != [] {
      RunInv(run[..|run| - 1]);
    }
  }

  /** The last set asked for sound and the gate was not disposed, neither before nor since. */
  predicate LastSetIsLive(run: seq<Event>) {
    LastSet(run) && !Disposed(run)
  }

  /** Whenever the queue is drained, capture is enabled only if the last set was true and nothing was disposed. */
  lemma GateSafety(run: seq<Event>)
    requires IsRun(run) && Drained(After(run)) && After(run).enabled
    ensures LastSet(run) && !Disposed(run)
  {
    RunInv(run);
  }

  /** After disposal a drained gate is closed and holds no device, whatever completed late. */
  lemma DisposedIsClosed(run: seq<Event>)
    requires IsRun(run) && Disposed(run) && After(run).phase != Unmuting(true)
    ensures !After(run).enabled && !After(run).live
  {
    RunInv(run);
  }

  /** A late unmute of a disposed gate leaves one possible queue step, and that step closes and stops. */
  lemma LateUnmuteCloses(run: seq<Event>, e: Event)
    requires IsRun(run) && Disposed(run) && After(run).phase == Unmuting(true)
    requires Possible(After(run), e) && (e.Start? || e.Effect? || e.Resolve? || e.Reject?)
    ensures e == Resolve && !Next(After(run), e).enabled && !Next(After(run), e).live
      && Next(After(run), e).phase == Idle
  {
    RunInv(run);
  }

  /** Work left in the queue; every queue step lowers it, so a queue without new calls drains. */
  function Work(g: Gate): nat {
    6 * g.waiting + match g.phase
    case Idle => 0
    case Unmuting(acted) => if acted then 4 else 5
    case Muting(acted) => if acted then 2 else 3
  }

  lemma QueueDrains(g: Gate, e: Event)
    requires Inv(g) && Possible(g, e)
    ensures e.Start? || e.Effect? || e.Resolve? || e.Reject? ==> Work(Next(g, e)) < Work(g)
    ensures Drained(g) <==> Work(g) == 0
    ensures !Drained(g) ==> Possible(g, Start) || Possible(g, Effect) || Possible(g, Resolve)
  {
  }

  // ---- the other direction: an undisturbed press is heard ----

  /** A track was there at the last set, and since then nothing was rejected or disposed. */
  predicate Undisturbed(run: seq<Event>)
    requires IsRun(run)
  {
    run != [] &&
    var front, e := run[..|run| - 1], run[|run| - 1];
    match e
    case Set(_) => After(front).attached && !After(front).disposed
    case Dispose => false
    case Reject => false
    case _ => Undisturbed(front)
  }

  /** What an undisturbed press has reached so far. */
  ghost predicate Heading(g: Gate) {
    g.attached && !g.disposed &&
    (g.wanted && g.waiting == 0 ==> g.phase == Unmuting(false) || (g.enabled && !g.phase.Muting?))
  }

  lemma {:induction false} UndisturbedHeads(run: seq<Event>)
    requires IsRun(run) && Undisturbed(run)
    ensures Heading(After(run))
  {
    var front := run[..|run| - 1];
    if !run[|run| - 1].Set? {
      UndisturbedHeads(front);
    }
  }

  /** The last SDK call that acted. */
  datatype Call = NoCall | Unmuted | Muted

  function LastCall(run: seq<Event>): Call
    requires IsRun(run)
  {
    if run == [] then NoCall
    else if run[|run| - 1] != Effect then LastCall(run[..|run| - 1])
    else if After(run[..|run| - 1]).phase.Unmuting? then Unmuted else Muted
  }

  /** Where the SDK is heading: an open press is unmuted, a released one muted, or the call for it is under way. */
  predicate Calls(g: Gate, last: Call) {
    g.waiting == 0 ==>
      if g.wanted then g.phase == Unmuting(false) || last == Unmuted
      else g.phase.Unmuting? || g.phase == Muting(false) || last == Muted
  }

  lemma {:induction false} UndisturbedCalls(run: seq<Event>)
    requires IsRun(run) && Undisturbed(run)
    ensures Calls(After(run), LastCall(run))
  {
    var front := run[..|run| - 1];
    if !run[|run| - 1].Set? {
      UndisturbedCalls(front);
      UndisturbedHeads(front);
    }
  }

  /**
   Without rejections the drained gate is open exactly when the last set was true, and the last call to the
   SDK that acted was an unmute or a mute accordingly.
   */
  lemma GateFollowsPress(run: seq<Event>)
    requires IsRun(run) && Undisturbed(run) && Drained(After(run))
    ensures After(run).enabled <==> LastSet(run)
    ensures LastCall(run) == if LastSet(run) then Unmuted else Muted
  {
    RunInv(run);
    UndisturbedHeads(run);
    UndisturbedCalls(run);
  }

  // ---- the object ----

  class Track {
    var enabled: bool
    var live: bool

    constructor ()
      ensures live
    {
      enabled, live := true, true;
    }

    method Stop()
      modifies this`live
      ensures !live
    {
      live := false;
    }
  }

  /**
   The fields of MicrophoneGate; pending is the number of queue entries not yet started, and phase the suspended one.
   */
  class MicrophoneGate {
    var wanted: bool
    var disposed: bool
    var track: Track?
    var pending: nat
    var phase: Phase

    function View(): Gate
      reads this, track
    {
      Gate(wanted, disposed, track != null, track != null && track.enabled, track != null && track.live, pending, phase)
    }

    constructor ()
      ensures View() == INITIAL
    {
      wanted, disposed, track, pending, phase := false, false, null, 0, Idle;
    }

    method AttachTrack(t: Track)
      requires Possible(View(), Attach(t.live))
      modifies this`track, t
      ensures View() == Next(old(View()), Attach(old(t.live)))
      ensures old(disposed) ==> !t.live && track == null
      ensures !old(disposed) ==> track == t
    {
      if disposed {
        t.Stop();
        return;
      }
      track := t;
      t.enabled := false;
    }

    method SetEnabled(enabled: bool)
      modifies this`wanted, this`pending, track
      ensures View() == Next(old(View()), Set(enabled)) && track == old(track)
    {
      wanted := enabled && !disposed;
      if !wanted && track != null {
        track.enabled := false;
      }
      pending := pending + 1;
    }

    method DisposeGate()
      modifies this`wanted, this`disposed, track
      ensures View() == Next(old(View()), Dispose) && track == old(track)
    {
      disposed := true;
      wanted := false;
      if track != null {
        track.enabled := false;
        track.Stop();
      }
    }

    /** The queued function up to its first await. */
    method Begin()
      requires Possible(View(), Start)
      modifies this`pending, this`phase, track
      ensures View() == Next(old(View()), Start) && track == old(track)
    {
      pending := pending - 1;
      if track == null || disposed {
        return;
      }
      if wanted {
        phase := Unmuting(false);
      } else {
        track.enabled := false;
        phase := Muting(false);
      }
    }

    /** The queued function after its pending SDK call resolved. */
    method Continue()
      requires Possible(View(), Resolve) && track != null
      modifies this`phase, track
      ensures View() == Next(old(View()), Resolve) && track == old(track)
    {
      if phase.Muting? {
        phase := Idle;
      } else if disposed {
        track.enabled := false;
        track.Stop();
        phase := Idle;
      } else if !wanted {
        track.enabled := false;
        phase := Muting(false);
      } else {
        phase := Idle;
      }
    }
  }
}
