/**
 * The part of the OpenGL object table that the shader hot-reload code
 * touches: shader and program objects, their compile and link status, and
 * the program installed for rendering. Each GL call the code makes is a
 * function from the table before the call to the table after it.
 */
module Gl {

  /**
   * Shader and program objects share one name space, and 0 is never a name.
   * A name is live from the call that creates it until the call that
   * deletes it. `compiled` holds the shaders whose last compile succeeded
   * (GL_COMPILE_STATUS), `linked` the programs whose last link succeeded
   * (GL_LINK_STATUS), `current` the program installed by glUseProgram
   * (0: none) and `next` the name the driver hands out next.
   */
  datatype Table = Table(
    shaders: set<nat>,
    compiled: set<nat>,
    programs: set<nat>,
    linked: set<nat>,
    current: nat,
    next: nat)

  predicate Valid(t: Table) {
    && 0 < t.next
    && t.compiled <= t.shaders
    && t.linked <= t.programs
    && t.shaders !! t.programs
    && (forall n | n in t.shaders :: 0 < n < t.next)
    && (forall n | n in t.programs :: 0 < n < t.next)
  }

  /** The table of a context that has created nothing yet. */
  function Fresh(): (t: Table)
    ensures Valid(t)
    ensures t.shaders == {} && t.programs == {} && t.current == 0
  {
    Table({}, {}, {}, {}, 0, 1)
  }

  /** A name handed out by a creation call, with the table after the call. */
  datatype Named = Named(table: Table, name: nat)

  /** glCreateShader: a fresh nonzero name becomes a live shader that has not compiled. */
  function CreateShader(t: Table): (r: Named)
    requires Valid(t)
    ensures Valid(r.table)
    ensures r.name != 0 && r.name !in t.shaders && r.name !in t.programs
    ensures r.table.shaders == t.shaders + {r.name} && r.name !in r.table.compiled
    ensures r.table.compiled == t.compiled && r.table.programs == t.programs
    ensures r.table.linked == t.linked && r.table.current == t.current
  {
    Named(t.(shaders := t.shaders + {t.next}, next := t.next + 1), t.next)
  }

  /**
   * glShaderSource and glCompileShader, read back through GL_COMPILE_STATUS:
   * `ok` is the compiler's verdict on the source text. A name that is not a
   * live shader is rejected without effect.
   */
  function CompileShader(t: Table, s: nat, ok: bool): (r: Table)
    requires Valid(t)
    ensures Valid(r)
    ensures s in r.compiled <==> s in t.shaders && ok
    ensures r.compiled - {s} == t.compiled - {s}
    ensures r.shaders == t.shaders && r.programs == t.programs
    ensures r.linked == t.linked && r.current == t.current && r.next == t.next
  {
    if s !in t.shaders then t
    else if ok then t.(compiled := t.compiled + {s})
    else t.(compiled := t.compiled - {s})
  }

  /**
   * glCreateProgram: a fresh nonzero name becomes a live program; when the
   * driver fails (`ok` false) the result is 0 and nothing changes.
   */
  function CreateProgram(t: Table, ok: bool): (r: Named)
    requires Valid(t)
    ensures Valid(r.table)
    ensures r.name == 0 <==> !ok
    ensures !ok ==> r.table == t
    ensures ok ==> r.name !in t.shaders && r.name !in t.programs && r.name !in r.table.linked
    ensures r.table.programs == t.programs + (if ok then {r.name} else {})
    ensures r.table.shaders == t.shaders && r.table.compiled == t.compiled
    ensures r.table.linked == t.linked && r.table.current == t.current
  {
    if ok then Named(t.(programs := t.programs + {t.next}, next := t.next + 1), t.next)
    else Named(t, 0)
  }

  /**
   * glAttachShader(p, vs), glAttachShader(p, fs), glLinkProgram(p). Attaching
   * 0, or a name that is not a live shader, fails without effect, so that
   * stage is simply missing from the program; a missing stage is optional
   * and does not by itself fail the link. The link succeeds only when p is a
   * live program, every stage that was attached compiled, and the linker
   * accepts what it was given (`ok`).
   */
  function LinkProgram(t: Table, p: nat, vs: nat, fs: nat, ok: bool): (r: Table)
    requires Valid(t)
    ensures Valid(r)
    ensures p in r.linked <==>
      && p in t.programs
      && (vs in t.shaders ==> vs in t.compiled)
      && (fs in t.shaders ==> fs in t.compiled)
      && ok
    ensures r.linked - {p} == t.linked - {p}
    ensures r.shaders == t.shaders && r.compiled == t.compiled && r.programs == t.programs
    ensures r.current == t.current && r.next == t.next
  {
    if p !in t.programs then t
    else if (vs in t.shaders ==> vs in t.compiled) && (fs in t.shaders ==> fs in t.compiled) && ok then
      t.(linked := t.linked + {p})
    else t.(linked := t.linked - {p})
  }

  /** glDeleteShader: the name stops being live; 0 and names that are not live shaders change nothing. */
  function DeleteShader(t: Table, s: nat): (r: Table)
    requires Valid(t)
    ensures Valid(r)
    ensures r.shaders == t.shaders - {s} && r.compiled == t.compiled - {s}
    ensures r.programs == t.programs && r.linked == t.linked
    ensures r.current == t.current && r.next == t.next
    ensures s !in t.shaders ==> r == t
  {
    if s in t.shaders then t.(shaders := t.shaders - {s}, compiled := t.compiled - {s}) else t
  }

  /**
   * glDeleteProgram: the name stops being live. A program that is installed
   * stays installed (the driver only flags it, and frees it once another
   * program replaces it), so `current` never changes. 0 and names that are
   * not live programs change nothing.
   */
  function DeleteProgram(t: Table, p: nat): (r: Table)
    requires Valid(t)
    ensures Valid(r)
    ensures r.programs == t.programs - {p} && r.linked == t.linked - {p}
    ensures r.shaders == t.shaders && r.compiled == t.compiled
    ensures r.current == t.current && r.next == t.next
    ensures p !in t.programs ==> r == t
  {
    if p in t.programs then t.(programs := t.programs - {p}, linked := t.linked - {p}) else t
  }

  /**
   * glUseProgram: installs p when p is 0 or a program whose last link
   * succeeded; for any other name the call fails and nothing changes.
   */
  function UseProgram(t: Table, p: nat): (r: Table)
    requires Valid(t)
    ensures Valid(r)
    ensures r.current == (if p == 0 || p in t.linked then p else t.current)
    ensures r.shaders == t.shaders && r.compiled == t.compiled
    ensures r.programs == t.programs && r.linked == t.linked && r.next == t.next
  {
    if p == 0 || p in t.linked then t.(current := p) else t
  }
}
