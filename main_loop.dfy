/**
 * Start-up and the main loop of the camforge pipeline: build and install
 * the first program, then on every pass poll window events, run the reload
 * check, read a camera frame and, unless it is empty, upload, draw, swap
 * and hand it to the virtual-webcam stub.
 */
module MainLoop {
  import Gl
  import opened HotReload

  /**
   * What the outside world supplies to one pass: the shader file's time,
   * the verdicts a rebuild would meet, and whether the camera frame is empty.
   */
  datatype Tick = Tick(mtime: Mtime, build: Build, frameEmpty: bool)

  /** The state after some passes; `aborted` when an exception escaped main. */
  datatype Pass = Pass(state: State, aborted: bool)

  /** The calls that show one non-empty frame, drawn with program `p`. */
  function Render(p: nat): seq<Event> {
    [Uploaded, Cleared, Drew(p), Swapped, Emitted]
  }

  /**
   * Start-up: build the first program in a context that holds no shader or
   * program yet, then install it. The install fails, leaving no program
   * installed, unless that program linked.
   */
  function Start(b: Build): (s: State)
    ensures Owned(s) && !s.seeded
    ensures s.program == 0 <==> !b.created
    ensures s.gl.current == (if Links(b) then s.program else 0)
    ensures s.log == BuildLog(b) && DrawsOnlyWith(s.log, s.gl.current)
  {
    var n := BuildProgram(Gl.Fresh(), b);
    State(false, 0, n.program, Gl.UseProgram(n.gl, n.program), n.log)
  }

  /**
   * One pass of the main loop. The reload check runs on every pass, before
   * the frame is read, so an empty frame never holds back a reload; an
   * empty frame skips the upload, draw, swap and webcam stub; a filesystem
   * error from the check ends the process before the frame is read.
   */
  function Iterate(s: State, t: Tick): (r: Pass)
    requires Valid(s)
    ensures Valid(r.state)
    ensures r.aborted <==> t.mtime.Unreadable?
    ensures r.aborted ==> r.state == s.(log := s.log + [Polled])
    ensures !r.aborted ==>
      var w := Watch(s, t.mtime, t.build).state;
      r.state == w.(log := r.state.log)
    ensures !r.aborted ==>
      r.state.log == s.log + [Polled] + ReloadLog(s, t.mtime, t.build) + [Grabbed]
                     + (if t.frameEmpty then [] else Render(s.gl.current))
    ensures r.state.gl.current == s.gl.current
    ensures Owned(s) ==> Owned(r.state)
  {
    WatchIgnoresLog(s, t.mtime, t.build, s.log + [Polled]);
    var w := Watch(s.(log := s.log + [Polled]), t.mtime, t.build);
    match w.outcome
    case Threw => Pass(w.state, true)
    case Returned(h) =>
      var grabbed := w.state.(program := h, log := w.state.log + [Grabbed]);
      if t.frameEmpty then Pass(grabbed, false)
      else Pass(grabbed.(log := grabbed.log + Render(grabbed.gl.current)), false)
  }

  /** The passes in `ticks`, in order, up to the first one that aborts. */
  function Run(s: State, ticks: seq<Tick>): (r: Pass)
    requires Valid(s)
    ensures Valid(r.state)
    ensures s.log <= r.state.log
    ensures r.state.gl.current == s.gl.current
    decreases |ticks|
  {
    if ticks == [] then Pass(s, false)
    else
      var p := Run(s, ticks[..|ticks| - 1]);
      if p.aborted then p else Iterate(p.state, ticks[|ticks| - 1])
  }

  /** The number of passes in `ticks` whose camera frame is not empty. */
  function Shown(ticks: seq<Tick>): nat
    decreases |ticks|
  {
    if ticks == [] then 0
    else Shown(ticks[..|ticks| - 1]) + (if ticks[|ticks| - 1].frameEmpty then 0 else 1)
  }

  /** Once a pass aborts, the passes after it never run. */
  lemma {:induction false} AbortIsFinal(s: State, ticks: seq<Tick>, k: nat)
    requires Valid(s) && k <= |ticks| && Run(s, ticks[..k]).aborted
    ensures Run(s, ticks) == Run(s, ticks[..k])
    decreases |ticks| - k
  {
    if k < |ticks| {
      assert ticks[..k + 1][..k] == ticks[..k];
      AbortIsFinal(s, ticks, k + 1);
    } else {
      assert ticks[..k] == ticks;
    }
  }

  /** No pass leaks a shader or program: ownership holds after every run. */
  lemma {:induction false} RunKeepsOwnership(s: State, ticks: seq<Tick>)
    requires Owned(s)
    ensures Owned(Run(s, ticks).state)
    decreases |ticks|
  {
    if ticks != [] {
      RunKeepsOwnership(s, ticks[..|ticks| - 1]);
    }
  }

  /** Every draw in `log` is shaded by program `p`. */
  predicate DrawsOnlyWith(log: seq<Event>, p: nat) {
    forall e | e in log :: e.Drew? ==> e.program == p
  }

  /**
   * The calls a pass appends after `pre` hold one draw, with program `p`,
   * when the frame is not empty and none when it is: the reload check's
   * messages `rl` hold none.
   */
  lemma PassLogDraws(pre: seq<Event>, log: seq<Event>, rl: seq<Event>, frameEmpty: bool, p: nat)
    requires forall e | e in rl :: IsMessage(e)
    requires log == pre + [Polled] + rl + [Grabbed] + (if frameEmpty then [] else Render(p))
    ensures DrawsOnlyWith(pre, p) ==> DrawsOnlyWith(log, p)
    ensures multiset(log)[Drew(p)] == multiset(pre)[Drew(p)] + (if frameEmpty then 0 else 1)
  {
    var tail := if frameEmpty then [] else Render(p);
    assert Drew(p) !in rl;
    assert multiset(tail)[Drew(p)] == if frameEmpty then 0 else 1;
    assert multiset(log) == multiset(pre) + multiset([Polled]) + multiset(rl) + multiset([Grabbed]) + multiset(tail);
    if DrawsOnlyWith(pre, p) {
      forall e | e in log && e.Drew? ensures e.program == p {
        assert e in pre || e in rl || e in tail;
      }
    }
  }

  /**
   * Whatever is reloaded, every frame is drawn with the program installed
   * before the loop started.
   */
  lemma {:induction false} RunDrawsInstalledProgram(s: State, ticks: seq<Tick>)
    requires Valid(s) && DrawsOnlyWith(s.log, s.gl.current)
    ensures DrawsOnlyWith(Run(s, ticks).state.log, s.gl.current)
    decreases |ticks|
  {
    if ticks != [] {
      var p := Run(s, ticks[..|ticks| - 1]);
      RunDrawsInstalledProgram(s, ticks[..|ticks| - 1]);
      var t := ticks[|ticks| - 1];
      var r := Iterate(p.state, t);
      if !p.aborted && !r.aborted {
        PassLogDraws(p.state.log, r.state.log, ReloadLog(p.state, t.mtime, t.build), t.frameEmpty, s.gl.current);
      }
    }
  }

  /**
   * A program that does not link at start-up is never installed, and no
   * reload installs one later: every frame of every run is drawn with no
   * program, so a shader broken at start-up cannot be repaired by editing it.
   */
  lemma BrokenStartNeverRecovers(b: Build, ticks: seq<Tick>)
    requires !Links(b)
    ensures var r := Run(Start(b), ticks).state;
      r.gl.current == 0 && DrawsOnlyWith(r.log, 0)
  {
    RunDrawsInstalledProgram(Start(b), ticks);
  }

  /**
   * Every pass that reads a non-empty frame draws it exactly once, and a
   * pass with an empty frame draws nothing.
   */
  lemma {:induction false} RunDrawsEachShownFrame(s: State, ticks: seq<Tick>)
    requires Valid(s)
    ensures var r := Run(s, ticks);
      !r.aborted ==>
        multiset(r.state.log)[Drew(s.gl.current)] == multiset(s.log)[Drew(s.gl.current)] + Shown(ticks)
    decreases |ticks|
  {
    if ticks != [] {
      var p := Run(s, ticks[..|ticks| - 1]);
      RunDrawsEachShownFrame(s, ticks[..|ticks| - 1]);
      var t := ticks[|ticks| - 1];
      var r := Iterate(p.state, t);
      if !p.aborted && !r.aborted {
        PassLogDraws(p.state.log, r.state.log, ReloadLog(p.state, t.mtime, t.build), t.frameEmpty, s.gl.current);
      }
    }
  }

  /**
   * Once the stored time is seeded, passes that all see that same time
   * rebuild nothing and print nothing: program, GL table and stored time
   * stay as they were.
   */
  lemma {:induction false} SteadyTimeIsQuiet(s: State, ticks: seq<Tick>)
    requires Valid(s) && s.seeded
    requires forall i | 0 <= i < |ticks| :: ticks[i].mtime == At(s.lastWrite)
    ensures var r := Run(s, ticks);
      && !r.aborted
      && r.state == s.(log := r.state.log)
      && forall i | |s.log| <= i < |r.state.log| :: !IsMessage(r.state.log[i])
    decreases |ticks|
  {
    if ticks != [] {
      var front := ticks[..|ticks| - 1];
      SteadyTimeIsQuiet(s, front);
    }
  }

  /**
   * The first reload check after start-up only seeds the stored time: the
   * program and every GL object stay as start-up left them.
   */
  lemma FirstCheckOnlySeeds(b: Build, t: Tick)
    requires t.mtime.At?
    ensures var s := Start(b); var r := Iterate(s, t);
      && r.state.program == s.program && r.state.gl == s.gl
      && r.state.seeded && r.state.lastWrite == t.mtime.ticks
  {
  }
}
