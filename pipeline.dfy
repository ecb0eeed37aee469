/**
 * The camforge program as it runs: the reload state lives in an object
 * whose methods follow the statements of LoadShaderFromFile,
 * CreateShaderProgram, WatchAndReload and the main loop one by one, and
 * each method is proved to have exactly the effect that HotReload and
 * MainLoop give it.
 */
module CamForge {
  import Gl
  import opened HotReload
  import opened MainLoop

  /** How the process ends: main returns a status, or an uncaught exception terminates it. */
  datatype Exit = Exited(status: int) | Terminated

  class Pipeline {
    /** The function-static of WatchAndReload: whether it has been initialised, and its value. */
    var seeded: bool
    var lastWrite: int
    /** main's `program`, passed to WatchAndReload by reference. */
    var program: nat
    /** The GL context's shader and program objects. */
    var gl: Gl.Table
    /** What has been printed and called so far. */
    var log: seq<Event>

    function Snapshot(): State
      reads this
    {
      State(seeded, lastWrite, program, gl, log)
    }

    /** Start-up: create the first program and install it with glUseProgram. */
    constructor (b: Build)
      ensures Snapshot() == Start(b)
    {
      seeded, lastWrite, program := false, 0, 0;
      gl, log := Gl.Fresh(), [];
      new;
      program := CreateShaderProgram(b);
      gl := Gl.UseProgram(gl, program);
    }

    /** LoadShaderFromFile for one stage, given whether the file opens and whether its source compiles. */
    method LoadShaderFromFile(stage: Stage, opens: bool, compiles: bool) returns (shader: nat)
      requires Gl.Valid(gl)
      modifies this
      ensures var r := LoadShader(old(gl), stage, opens, compiles);
        gl == r.gl && shader == r.shader && log == old(log) + r.log
      ensures seeded == old(seeded) && lastWrite == old(lastWrite) && program == old(program)
    {
      if !opens {
        log := log + [OpenFailed(stage)];
        return 0;
      }
      var created := Gl.CreateShader(gl);
      gl, shader := created.table, created.name;
      gl := Gl.CompileShader(gl, shader, compiles);
      var success := shader in gl.compiled;
      if !success {
        log := log + [CompileFailed(stage)];
      }
    }

    /** CreateShaderProgram: both stages, a program, the link, then both stages deleted. */
    method CreateShaderProgram(b: Build) returns (p: nat)
      requires Gl.Valid(gl)
      modifies this
      ensures var r := BuildProgram(old(gl), b);
        gl == r.gl && p == r.program && log == old(log) + r.log
      ensures seeded == old(seeded) && lastWrite == old(lastWrite) && program == old(program)
    {
      var vs := LoadShaderFromFile(Vertex, b.vertOpens, b.vertCompiles);
      var fs := LoadShaderFromFile(Fragment, b.fragOpens, b.fragCompiles);
      var created := Gl.CreateProgram(gl, b.created);
      gl, p := created.table, created.name;
      gl := Gl.LinkProgram(gl, p, vs, fs, b.links);
      gl := Gl.DeleteShader(gl, vs);
      gl := Gl.DeleteShader(gl, fs);
    }

    /**
     * WatchAndReload, given the time the file system reports for the
     * fragment shader (both reads of the first call see the same time).
     */
    method WatchAndReload(m: Mtime, b: Build) returns (o: Outcome)
      requires HotReload.Valid(Snapshot())
      modifies this
      ensures Watch(old(Snapshot()), m, b) == Watched(Snapshot(), o)
    {
      if m.Unreadable? {
        return Threw;
      }
      if !seeded {
        seeded, lastWrite := true, m.ticks;
      }
      var now := m.ticks;
      if now != lastWrite {
        lastWrite := now;
        var newProgram := CreateShaderProgram(b);
        if newProgram != 0 {
          gl := Gl.DeleteProgram(gl, program);
          program := newProgram;
          log := log + [HotReloaded];
        }
      }
      return Returned(program);
    }

    /** One pass of the main loop; `aborted` when the reload check threw. */
    method Iteration(t: Tick) returns (aborted: bool)
      requires HotReload.Valid(Snapshot())
      modifies this
      ensures Iterate(old(Snapshot()), t) == Pass(Snapshot(), aborted)
    {
      log := log + [Polled];
      var o := WatchAndReload(t.mtime, t.build);
      if o.Threw? {
        return true;
      }
      program := o.handle;
      log := log + [Grabbed];
      if t.frameEmpty {
        return false;
      }
      log := log + [Uploaded, Cleared, Drew(gl.current), Swapped, Emitted];
      return false;
    }

    /**
     * The main loop: one pass per element of `ticks`, after which the window
     * asks to close; a pass that throws ends the loop.
     */
    method Loop(ticks: seq<Tick>) returns (aborted: bool)
      requires HotReload.Valid(Snapshot())
      modifies this
      ensures Run(old(Snapshot()), ticks) == Pass(Snapshot(), aborted)
    {
      ghost var start := Snapshot();
      var i := 0;
      while i < |ticks|
        invariant 0 <= i <= |ticks|
        invariant HotReload.Valid(Snapshot())
        invariant Run(start, ticks[..i]) == Pass(Snapshot(), false)
      {
        assert ticks[..i + 1][..i] == ticks[..i];
        aborted := Iteration(ticks[i]);
        if aborted {
          AbortIsFinal(start, ticks, i + 1);
          return;
        }
        i := i + 1;
      }
      assert ticks[..i] == ticks;
      aborted := false;
    }
  }

  /**
   * main: exit with -1 when the camera does not open; otherwise start up
   * and loop until the window closes (status 0) or a reload check throws.
   */
  method RunMain(cameraOpens: bool, b: Build, ticks: seq<Tick>) returns (exit: Exit)
    ensures !cameraOpens ==> exit == Exited(-1)
    ensures cameraOpens ==> exit == (if Run(Start(b), ticks).aborted then Terminated else Exited(0))
  {
    if !cameraOpens {
      return Exited(-1);
    }
    var pipeline := new Pipeline(b);
    var aborted := pipeline.Loop(ticks);
    exit := if aborted then Terminated else Exited(0);
  }
}
