/**
 * Shader loading and the hot-reload check of the camforge pipeline
 * (LoadShaderFromFile, CreateShaderProgram and WatchAndReload), as
 * functions from the state before a call to the state after it. What the
 * outside world decides (whether a file opens, whether a stage compiles,
 * whether the driver creates and links a program, what time the file
 * system reports) is an argument.
 */
module HotReload {
  import Gl

  datatype Stage = Vertex | Fragment

  /** What the program prints and the outside calls of the main loop, in the order they happen. */
  datatype Event =
    | OpenFailed(stage: Stage)     // "Failed to open shader" on stderr
    | CompileFailed(stage: Stage)  // "Shader compile error" and the info log on stderr
    | HotReloaded                  // "Shader hot-reloaded." on stdout
    | Polled                       // glfwPollEvents
    | Grabbed                      // a frame read from the camera
    | Uploaded                     // glTexImage2D of the frame
    | Cleared                      // glClear
    | Drew(program: nat)           // glDrawElements, shaded by the installed program
    | Swapped                      // glfwSwapBuffers
    | Emitted                      // pipeToVirtualWebcam

  /** The console lines; everything else in the log is a call to a library. */
  predicate IsMessage(e: Event) {
    e.OpenFailed? || e.CompileFailed? || e.HotReloaded?
  }

  /**
   * The outside world's verdicts during one build of the program: whether
   * each file opens, whether each stage compiles, whether glCreateProgram
   * hands out a name, and whether the linker accepts the two stages.
   */
  datatype Build = Build(
    vertOpens: bool, vertCompiles: bool,
    fragOpens: bool, fragCompiles: bool,
    created: bool,
    links: bool)

  /**
   * Whether a build ends in a program whose link succeeded: the program was
   * created, every stage whose file opened compiled, and the linker accepted.
   * A stage whose file did not open is missing, which alone fails nothing.
   */
  predicate Links(b: Build) {
    && b.created
    && (b.vertOpens ==> b.vertCompiles)
    && (b.fragOpens ==> b.fragCompiles)
    && b.links
  }

  /**
   * The fragment shader's modification time as fs::last_write_time reports
   * it (a count of clock ticks), or the filesystem error it throws.
   */
  datatype Mtime = At(ticks: int) | Unreadable

  /**
   * What the reload path reads and changes: the function-static `lastWrite`
   * of WatchAndReload (`seeded` is false until its initialiser has run),
   * main's `program`, the GL table and the log.
   */
  datatype State = State(seeded: bool, lastWrite: int, program: nat, gl: Gl.Table, log: seq<Event>)

  /** `program` is 0 or a name the driver has handed out. */
  predicate Valid(s: State) {
    Gl.Valid(s.gl) && s.program < s.gl.next
  }

  /** Nothing leaks: no shader stage is live, and the only live program is `program`. */
  predicate Owned(s: State) {
    && Valid(s)
    && s.gl.shaders == {}
    && s.gl.programs == (if s.program == 0 then {} else {s.program})
  }

  /** What loading one stage prints. */
  function Report(stage: Stage, opens: bool, compiles: bool): seq<Event> {
    if !opens then [OpenFailed(stage)]
    else if compiles then []
    else [CompileFailed(stage)]
  }

  /** What one build prints: the vertex stage's report, then the fragment stage's. */
  function BuildLog(b: Build): (r: seq<Event>)
    ensures forall e | e in r :: IsMessage(e)
  {
    Report(Vertex, b.vertOpens, b.vertCompiles) + Report(Fragment, b.fragOpens, b.fragCompiles)
  }

  datatype Loaded = Loaded(gl: Gl.Table, shader: nat, log: seq<Event>)

  /**
   * LoadShaderFromFile: a file that does not open yields 0 and creates
   * nothing; otherwise a new shader is created and returned whether or not
   * it compiled.
   */
  function LoadShader(gl: Gl.Table, stage: Stage, opens: bool, compiles: bool): (r: Loaded)
    requires Gl.Valid(gl)
    ensures Gl.Valid(r.gl)
    ensures r.shader == 0 <==> !opens
    ensures !opens ==> r.gl == gl
    ensures opens ==> r.shader !in gl.shaders && r.shader !in gl.programs
    ensures r.gl.shaders == gl.shaders + (if opens then {r.shader} else {})
    ensures opens ==> (r.shader in r.gl.compiled <==> compiles)
    ensures r.gl.compiled - {r.shader} == gl.compiled
    ensures r.gl.programs == gl.programs && r.gl.linked == gl.linked && r.gl.current == gl.current
    ensures r.log == Report(stage, opens, compiles)
  {
    if !opens then Loaded(gl, 0, [OpenFailed(stage)])
    else
      var c := Gl.CreateShader(gl);
      var t := Gl.CompileShader(c.table, c.name, compiles);
      Loaded(t, c.name, if c.name in t.compiled then [] else [CompileFailed(stage)])
  }

  datatype Built = Built(gl: Gl.Table, program: nat, log: seq<Event>)

  /**
   * CreateShaderProgram: load both stages, create a program, attach and
   * link, then delete both stages. The result is nonzero exactly when
   * glCreateProgram succeeded, whatever the files, compiles and link did.
   */
  function BuildProgram(gl: Gl.Table, b: Build): (r: Built)
    requires Gl.Valid(gl)
    ensures Gl.Valid(r.gl)
    ensures r.gl.shaders == gl.shaders && r.gl.compiled == gl.compiled
    ensures r.program == 0 <==> !b.created
    ensures b.created ==> r.program !in gl.programs && r.program !in gl.shaders && gl.next <= r.program
    ensures r.gl.programs == gl.programs + (if b.created then {r.program} else {})
    ensures r.program in r.gl.linked <==> Links(b)
    ensures r.gl.linked - {r.program} == gl.linked - {r.program}
    ensures r.gl.current == gl.current
    ensures r.log == BuildLog(b)
  {
    var v := LoadShader(gl, Vertex, b.vertOpens, b.vertCompiles);
    var f := LoadShader(v.gl, Fragment, b.fragOpens, b.fragCompiles);
    var p := Gl.CreateProgram(f.gl, b.created);
    var l := Gl.LinkProgram(p.table, p.name, v.shader, f.shader, b.links);
    Built(Gl.DeleteShader(Gl.DeleteShader(l, v.shader), f.shader), p.name, v.log + f.log)
  }

  /** Whether a check that observes `m` in state `s` finds the file changed. */
  predicate Changed(s: State, m: Mtime) {
    m.At? && s.seeded && m.ticks != s.lastWrite
  }

  /** What a check that observes `m` in state `s` prints. */
  function ReloadLog(s: State, m: Mtime, b: Build): (r: seq<Event>)
    ensures forall e | e in r :: IsMessage(e)
  {
    if !Changed(s, m) then []
    else BuildLog(b) + (if b.created then [HotReloaded] else [])
  }

  datatype Outcome = Returned(handle: nat) | Threw

  datatype Watched = Watched(state: State, outcome: Outcome)

  /**
   * WatchAndReload. The first call seeds the stored time; any later time
   * that differs from the stored one, earlier or later, is a change: the
   * stored time is updated before building, and a nonzero new program
   * replaces the old one, which is deleted, whatever its compile and link
   * status. The installed program is never touched.
   */
  function Watch(s: State, m: Mtime, b: Build): (r: Watched)
    requires Valid(s)
    ensures Valid(r.state)
    ensures r.outcome.Threw? <==> m.Unreadable?
    ensures m.Unreadable? ==> r.state == s
    ensures m.At? ==> r.state.seeded && r.state.lastWrite == m.ticks
    ensures m.At? ==> r.outcome == Returned(r.state.program)
    ensures m.At? && !Changed(s, m) ==> r.state == s.(seeded := true, lastWrite := m.ticks)
    ensures Changed(s, m) && b.created ==>
      && r.state.program != 0 && r.state.program != s.program && r.state.program !in s.gl.programs
      && r.state.gl.programs == s.gl.programs - {s.program} + {r.state.program}
      && (r.state.program in r.state.gl.linked <==> Links(b))
      && r.state.gl.compiled == s.gl.compiled
      && r.state.gl.linked - {r.state.program} == s.gl.linked - {s.program}
    ensures Changed(s, m) && !b.created ==>
      && r.state.program == s.program && r.state.gl.programs == s.gl.programs
      && r.state.gl.linked == s.gl.linked && r.state.gl.compiled == s.gl.compiled
    ensures r.state.gl.shaders == s.gl.shaders
    ensures r.state.gl.current == s.gl.current
    ensures r.state.log == s.log + ReloadLog(s, m, b)
    ensures Owned(s) ==> Owned(r.state)
  {
    match m
    case Unreadable => Watched(s, Threw)
    case At(now) =>
      var last := if s.seeded then s.lastWrite else now;
      if now == last then
        Watched(s.(seeded := true, lastWrite := last), Returned(s.program))
      else
        var n := BuildProgram(s.gl, b);
        var t :=
          if n.program != 0 then
            s.(seeded := true, lastWrite := now, program := n.program,
               gl := Gl.DeleteProgram(n.gl, s.program), log := s.log + n.log + [HotReloaded])
          else
            s.(seeded := true, lastWrite := now, gl := n.gl, log := s.log + n.log);
        Watched(t, Returned(t.program))
  }

  /** What has been logged before a check does not influence the check. */
  lemma WatchIgnoresLog(s: State, m: Mtime, b: Build, l: seq<Event>)
    requires Valid(s)
    ensures var w := Watch(s, m, b);
      Watch(s.(log := l), m, b) == Watched(w.state.(log := l + ReloadLog(s, m, b)), w.outcome)
  {
  }

  /**
   * A check stores the time it saw before it builds, so a second check at
   * the same time rebuilds nothing, whatever the first build did: in
   * particular a failed rebuild is retried only once the file's time
   * differs again.
   */
  lemma SameTimeDoesNotRebuild(s: State, now: int, b: Build, b': Build)
    requires Valid(s) && s.seeded && now != s.lastWrite
    ensures var w := Watch(s, At(now), b);
      Watch(w.state, At(now), b') == Watched(w.state, Returned(w.state.program))
  {
  }

  /** A time earlier than the stored one is a change like any other and rebuilds. */
  lemma EarlierTimeReloads(s: State, now: int, b: Build)
    requires Valid(s) && s.seeded && now < s.lastWrite && b.created
    ensures var w := Watch(s, At(now), b);
      w.state.program != s.program && w.state.lastWrite == now && HotReloaded in w.state.log
  {
  }

  /**
   * The swap deletes the program that start-up installed but never installs
   * the new one: the driver keeps drawing with the deleted program.
   */
  lemma SwapLeavesDeletedProgramInstalled(s: State, m: Mtime, b: Build)
    requires Owned(s) && s.program != 0 && s.gl.current == s.program
    requires Changed(s, m) && b.created
    ensures var r := Watch(s, m, b).state;
      && r.gl.current == s.program
      && r.gl.current != r.program
      && r.gl.current !in r.gl.programs
  {
  }
}
