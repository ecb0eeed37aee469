# camforge shader hot-reload, modelled in Dafny

camforge shows a camera feed in a window. Each camera frame goes through a GLSL fragment shader, and the shader is
reloaded from disk while the program runs. This project models the part of `src/app/main.cpp` that has state:

- `LoadShaderFromFile` creates and compiles one shader stage.
- `CreateShaderProgram` loads both stages, creates and links a program, then deletes both stages.
- `WatchAndReload` keeps a function-static `lastWrite` and swaps main's `program` when the fragment
  shader's modification time changes.
- The main loop polls events, runs the reload check, reads a camera frame and, unless the frame is empty,
  uploads, draws, swaps buffers and calls the virtual-webcam stub.

The files are:

- `gl.dfy` (module `Gl`): the OpenGL object table the code touches. It holds the live shader and program names,
  their compile and link status, the installed program and fresh-name allocation. Each GL call used is a function
  on that table.
- `hot_reload.dfy` (module `HotReload`): `LoadShader`, `BuildProgram` and `Watch` give the effect of the three C++
  functions as functions on values. `Owned` is the no-leak invariant. A few lemmas cover reload behaviour.
- `main_loop.dfy` (module `MainLoop`): start-up (`Start`), one pass of the loop (`Iterate`), a run of passes
  (`Run`), and lemmas by induction about whole runs.
- `pipeline.dfy` (module `CamForge`): class `Pipeline` holds the mutable state (`seeded`/`lastWrite`, `program`,
  the GL table and the event log). Its methods follow the C++ statements one by one. Each method is proved to
  have exactly the effect that the value-level function gives it. `RunMain` models `main`.

The outside world's decisions are arguments:

- whether a shader file opens;
- whether a stage compiles;
- whether `glCreateProgram` returns a name;
- whether the linker accepts the stages;
- the time `fs::last_write_time` reports, or the error it throws;
- whether the camera opens;
- whether a camera frame is empty.

Timestamps are integer tick counts, compared only for equality as the code does.

Behaviour the code has, which the model reproduces and proves:

- Change detection is plain inequality. A time earlier than the stored one also triggers a rebuild
  (`EarlierTimeReloads`).
- The stored time is updated before building. A second check at the same time rebuilds nothing, so a failed
  rebuild is retried only after the next change (`SameTimeDoesNotRebuild`).
- Failed compiles and failed links do not stop the swap. Only a zero name from `glCreateProgram` keeps the old
  program (`HotReload.Watch`, `HotReload.BuildProgram`).
- A shader file that does not open leaves its stage missing. The program still links with the other stage alone,
  so only a stage that opened but did not compile fails the link (`Gl.LinkProgram`).
- `glUseProgram` runs only at start-up. The reload path deletes the installed program and never installs the new
  one. Every frame is drawn with the program `glUseProgram` installed at start-up, or with no program when that
  one did not link. No reload ever changes this, so a shader broken at start-up cannot be repaired by editing it
  (`SwapLeavesDeletedProgramInstalled`, `RunDrawsInstalledProgram`, `BrokenStartNeverRecovers`).
- An error from `fs::last_write_time` is not caught. It ends the process (`Exit.Terminated`), so it is neither
  retried nor ignored.
- The code has no frame pacing, no FPS counter and no minimum interval between checks, so the model has none of
  them.

## Model

| member | source | states |
|---|---|---|
| `Gl.CreateShader` | src/app/main.cpp:23 | glCreateShader hands out a fresh nonzero name, not live before, that becomes a live, not yet compiled shader; programs and installed program unchanged |
| `Gl.CompileShader` | src/app/main.cpp:24-29 | after glShaderSource/glCompileShader the stage's GL_COMPILE_STATUS is the compiler's verdict; other stages' status and all names unchanged |
| `Gl.CreateProgram` | src/app/main.cpp:42 | glCreateProgram returns 0 exactly when the driver fails, changing nothing; otherwise a fresh nonzero live program that is not linked |
| `Gl.LinkProgram` | src/app/main.cpp:43-45 | the program's link status after attach+link holds iff it is a live program, every stage actually attached (a live shader) compiled, and the linker accepts; a missing stage (name 0) does not by itself fail the link; other programs unchanged |
| `Gl.DeleteShader` | src/app/main.cpp:47-48 | the stage is no longer live and its status is dropped; deleting 0 or a non-shader changes nothing |
| `Gl.DeleteProgram` | src/app/main.cpp:59 | the program is no longer live; the installed program stays installed; deleting 0 changes nothing |
| `Gl.UseProgram` | src/app/main.cpp:122 | glUseProgram installs 0 or a linked program and otherwise fails without effect |
| `HotReload.LoadShader` | src/app/main.cpp:15-37 | a file that does not open yields 0, creates nothing and reports "failed to open"; otherwise a fresh live shader is returned even when compilation failed, its compile status is the verdict, and a failure is reported once |
| `HotReload.BuildProgram` | src/app/main.cpp:39-50 | no stage object survives (live shaders unchanged); at most one live program is added; the result is nonzero exactly when glCreateProgram succeeded, regardless of file, compile and link outcomes; it is linked iff it was created, every stage whose file opened compiled, and the linker accepted |
| `HotReload.Watch` | src/app/main.cpp:52-65 | an unreadable time throws with nothing changed; otherwise the stored time becomes the observed one and the returned handle is `program`; an unchanged time (and the first call) only seeds; a changed time (earlier or later) rebuilds, and a nonzero new program replaces and deletes the old one whatever its link status, while a zero one leaves program and live programs unchanged; stages never leak, the installed program never changes, and `Owned` is preserved |
| `HotReload.SameTimeDoesNotRebuild` | src/app/main.cpp:55-57 | after a check that saw a changed time, a second check with the same time does nothing, whatever the first build did (so a failed rebuild is not retried) |
| `HotReload.EarlierTimeReloads` | src/app/main.cpp:55 | a time earlier than the stored one swaps in a new program and records it as the stored time |
| `HotReload.SwapLeavesDeletedProgramInstalled` | src/app/main.cpp:58-60 | when start-up installed the program, a swap leaves installed a program that is no longer live and differs from `program` |
| `MainLoop.Start` | src/app/main.cpp:119-122 | start-up leaves nothing leaked, the static unseeded, a nonzero program iff glCreateProgram succeeded, and the program installed iff it linked (else none); nothing has been drawn |
| `MainLoop.Iterate` | src/app/main.cpp:125-139 | every pass polls and then runs the reload check before reading the frame, with the same effect on program and GL table whether or not the frame is empty; a throwing check ends the process before the frame read; an empty frame skips upload, clear, draw, swap and webcam stub; a non-empty one draws with the installed program; the installed program never changes and `Owned` is preserved |
| `MainLoop.Run` | src/app/main.cpp:125-140 | passes run in order until one aborts; the log only grows and the installed program never changes |
| `MainLoop.PassLogDraws` | src/app/main.cpp:127-139 | the calls one pass appends (poll, the check's messages, frame read, and for a non-empty frame upload, clear, draw, swap, webcam stub) add exactly one draw, with the installed program, for a non-empty frame and none for an empty one |
| `MainLoop.AbortIsFinal` | src/app/main.cpp:125-127 | after a pass whose check threw, no later pass runs |
| `MainLoop.RunKeepsOwnership` | src/app/main.cpp:40-60 | over any number of passes no shader object stays live and the only live program is `program` |
| `MainLoop.RunDrawsInstalledProgram` | src/app/main.cpp:122-136 | over any run, every frame is drawn with the program installed before the loop, however many reloads happen |
| `MainLoop.BrokenStartNeverRecovers` | src/app/main.cpp:121-136 | when the start-up program does not link, no program is ever installed and every frame of every run is drawn with none, however many reloads happen |
| `MainLoop.RunDrawsEachShownFrame` | src/app/main.cpp:129-137 | over a run that did not abort, the number of draws added equals the number of non-empty frames |
| `MainLoop.SteadyTimeIsQuiet` | src/app/main.cpp:53-56 | once seeded, passes that all see the stored time never abort or rebuild, print nothing, and leave program, GL table and stored time unchanged |
| `MainLoop.FirstCheckOnlySeeds` | src/app/main.cpp:53-55 | the first check after start-up only seeds the stored time; program and GL objects stay as start-up left them |
| `CamForge.Pipeline.constructor` | src/app/main.cpp:119-122 | the object's state is exactly `Start` |
| `CamForge.Pipeline.LoadShaderFromFile` | src/app/main.cpp:15-37 | the statement-by-statement code has exactly the effect of `LoadShader` and leaves static, program and the rest unchanged |
| `CamForge.Pipeline.CreateShaderProgram` | src/app/main.cpp:39-50 | the statement-by-statement code has exactly the effect of `BuildProgram` |
| `CamForge.Pipeline.WatchAndReload` | src/app/main.cpp:52-65 | the code on the static and on `program` has exactly the effect and result of `Watch` |
| `CamForge.Pipeline.Iteration` | src/app/main.cpp:126-139 | one pass of the loop body has exactly the effect of `Iterate` |
| `CamForge.Pipeline.Loop` | src/app/main.cpp:125-140 | the while loop has exactly the effect of `Run` over the passes before the window closes |
| `CamForge.RunMain` | src/app/main.cpp:73-143 | main returns -1 when the camera does not open; otherwise it terminates if a reload check throws during the run and returns 0 when the window closes |

## Left out

- Window, context and GLEW start-up are left out. So are the vertex array, buffers, texture and the quad's
  vertex data (src/app/main.cpp:75-116). They are one-time library calls whose results the code never checks.
  A failure there is not modelled.
- Camera capture and colour conversion are not modelled. A frame is only "empty or not" (`Tick.frameEmpty`).
  Pixel data is not modelled.
- File reading, GLSL compilation, linking and the info-log text are not modelled. Each becomes a boolean outcome
  in `Build`. Console lines are events without their text.
- `glfwWindowShouldClose` is the length of the tick sequence. The window closes after the last pass.
- `pipeToVirtualWebcam` is an empty stub. It is recorded only as the `Emitted` event.
- `Gl.CreateShader` never fails. A failing `glCreateShader` would make `LoadShaderFromFile` read an uninitialised
  compile status, which is undefined behaviour.
- `Gl.LinkProgram` leaves a program with no stage attached at all (both files missing) to the linker verdict
  `Build.links`, like every other link outcome.
- `Gl.LinkProgram` folds in both `glAttachShader` calls. Attachment lists are not tracked. A stage deleted while
  still attached is treated as gone, though a driver keeps it inside the program until the program is deleted.
- `Gl.CreateShader` and `Gl.CreateProgram` hand out names in increasing order and never reuse one. A real driver
  may reuse a deleted name. The properties rely only on the name being fresh.
- `CamForge.Pipeline.WatchAndReload` takes one time for both `fs::last_write_time` reads of the first call. A
  write landing between the static initialiser's read and the second read is not modelled. With that write, the
  first call would rebuild.
- `src/main.cpp` is an earlier revision of the same program and is not part of this model.
