/** The builder (src/builder.rs): assemble the template bindings, then walk the template
    tree, rendering every `.tpl` file into the build tree with the extension removed and
    copying every other file as it is. */
module Builder {
  import opened Wrappers
  import opened Paths
  import opened Error
  import opened Text
  import opened Blueprint
  import opened Configuration
  import Walker

  /** `TEMPLATE_EXTENSION`. */
  const TemplateExtension: string := "tpl"

  // ---------------------------------------------------------------------------
  // Computed bindings

  /** What the host reports before the build starts. The commands and the file read are
      not modelled; only their outcomes are. */
  datatype Host = Host(
    userVar: Option<string>,                 // `env::var("USER").ok()`
    usernameVar: Option<string>,             // `env::var("USERNAME").ok()`
    hostnameFile: Result<string, IoError>,   // reading /etc/hostname
    hostnameCmd: Option<string>,             // stdout of `hostname`, if it ran and was UTF-8
    unameCmd: Option<string>)                // stdout of `uname`, if it ran and was UTF-8

  /** `get_username`: `USER` when it is set, else `USERNAME`, else the empty string. A set
      but empty `USER` still wins. */
  function Username(h: Host): (r: string)
    ensures h.userVar.Some? ==> r == h.userVar.value
    ensures h.userVar.None? && h.usernameVar.Some? ==> r == h.usernameVar.value
    ensures h.userVar.None? && h.usernameVar.None? ==> r == ""
  {
    match h.userVar
    case Some(u) => u
    case None => match h.usernameVar case Some(u) => u case None => ""
  }

  /** `get_hostname`: the trimmed contents of /etc/hostname, else the trimmed output of
      `hostname`, else the empty string. */
  function Hostname(h: Host): (r: string)
    ensures h.hostnameFile.Ok? ==> r == Trim(h.hostnameFile.value)
    ensures h.hostnameFile.Err? && h.hostnameCmd.Some? ==> r == Trim(h.hostnameCmd.value)
    ensures h.hostnameFile.Err? && h.hostnameCmd.None? ==> r == ""
    ensures |r| > 0 ==> !IsWhitespace(r[0]) && !IsWhitespace(r[|r| - 1])
  {
    var raw := if h.hostnameFile.Ok? then h.hostnameFile.value
               else if h.hostnameCmd.Some? then h.hostnameCmd.value
               else "";
    Trim(raw)
  }

  /** `get_operating_system`: the output of `uname`, or "unknown" when it cannot be had,
      trimmed and lower-cased. */
  function OperatingSystem(h: Host): (r: string)
    ensures h.unameCmd.None? ==> r == Unknown
    ensures h.unameCmd.Some? ==> r == ToLower(Trim(h.unameCmd.value))
    ensures NoCapitals(r)
  {
    if h.unameCmd.None? then
      LowerHasNoCapitals(Trim(Unknown));
      UnknownIsNormal();
      Unknown
    else
      LowerHasNoCapitals(Trim(h.unameCmd.value));
      ToLower(Trim(h.unameCmd.value))
  }

  /** The fallback operating-system name. */
  const Unknown: string := "unknown"

  /** The fallback name is already trimmed and lower-case. */
  lemma UnknownIsNormal()
    ensures ToLower(Trim(Unknown)) == Unknown
  {
    var u := Unknown;
    assert |u| == 7;
    assert u[0] == 'u' && u[1] == 'n' && u[2] == 'k' && u[3] == 'n' && u[4] == 'o' && u[5] == 'w' && u[6] == 'n';
    assert NoCapitals(u);
    TrimUnpadded(u);
    LowerIdentity(u);
  }

  // ---------------------------------------------------------------------------
  // The environment

  /** A value of the variables file as the TOML parser hands it over. */
  datatype TomlValue =
    | TString(s: string)
    | TBoolean(b: bool)
    | TInteger(i: int)
    | TFloat(text: string)
    | TDatetime(text: string)
    | TArray
    | TTable

  /** The names of the computed bindings. */
  const HostnameKey: string := "hostname"
  const UsernameKey: string := "username"
  const OsKey: string := "os"

  lemma ComputedKeysDistinct()
    ensures HostnameKey != UsernameKey && HostnameKey != OsKey && UsernameKey != OsKey
  {
    assert HostnameKey[0] != UsernameKey[0];
    assert |HostnameKey| != |OsKey| && |UsernameKey| != |OsKey|;
  }

  /** The computed bindings. */
  function Computed(h: Host): (env: Env)
    ensures env.Keys == {HostnameKey, UsernameKey, OsKey}
    ensures env[HostnameKey] == Str(Hostname(h)) && env[UsernameKey] == Str(Username(h))
    ensures env[OsKey] == Str(OperatingSystem(h))
  {
    ComputedKeysDistinct();
    map[HostnameKey := Str(Hostname(h)), UsernameKey := Str(Username(h)), OsKey := Str(OperatingSystem(h))]
  }

  /** A variables-file value as a template value: only strings and booleans have one. */
  function ConvertValue(v: TomlValue): (r: Option<Value>)
    ensures r.Some? <==> v.TString? || v.TBoolean?
    ensures v.TString? ==> r == Some(Str(v.s))
    ensures v.TBoolean? ==> r == Some(Bool(v.b))
  {
    match v
    case TString(s) => Some(Str(s))
    case TBoolean(b) => Some(Bool(b))
    case _ => None
  }

  /** The whole variables table converted, or `None` when some value has no conversion.
      The table's keys are distinct, so the order the source visits them in does not
      change the outcome. */
  function ConvertTable(table: map<string, TomlValue>): (r: Option<map<string, Value>>)
    ensures r.None? <==> exists k :: k in table && ConvertValue(table[k]).None?
    ensures r.Some? ==> r.value.Keys == table.Keys
    ensures r.Some? ==> forall k :: k in table ==> ConvertValue(table[k]) == Some(r.value[k])
  {
    if exists k :: k in table && ConvertValue(table[k]).None? then None
    else Some(map k | k in table :: ConvertValue(table[k]).value)
  }

  /** Where the variables file leads: its converted bindings, or the located error that
      ends the build. An unreadable file contributes nothing. */
  function FileBindings(path: Path, variables: Result<string, IoError>,
                        parseToml: string -> Result<map<string, TomlValue>, string>)
    : (r: Result<map<string, Value>, LocatedError>)
    ensures variables.Err? ==> r == Ok(map[])
    ensures variables.Ok? && parseToml(variables.value).Err? ==>
              r == Err(LocatedError(path, Toml(parseToml(variables.value).error)))
    ensures variables.Ok? && parseToml(variables.value).Ok? ==>
              var converted := ConvertTable(parseToml(variables.value).value);
              && (converted.None? ==> r == Err(LocatedError(path, Type)))
              && (converted.Some? ==> r == Ok(converted.value))
  {
    if variables.Err? then Ok(map[])
    else
      var table :- WithLocation(if parseToml(variables.value).Ok? then Ok(parseToml(variables.value).value)
                                else Err(Toml(parseToml(variables.value).error)), path);
      match ConvertTable(table)
      case None => Err(Locate(Type, path))
      case Some(m) => Ok(m)
  }

  /** The environment-building part of `build_tree`. The variables file's contents are
      `variables` (a failed read skips the file) and are parsed with `parseToml`. The
      computed bindings come first, the file overrides them, and every flag is then bound
      to `true`. */
  function BuildEnv(cfg: Config, h: Host, variables: Result<string, IoError>,
                    parseToml: string -> Result<map<string, TomlValue>, string>)
    : (r: Result<Env, Errors>)
    ensures r.Err? <==> FileBindings(cfg.variablesPath, variables, parseToml).Err?
    ensures r.Err? ==> r.error == Single(FileBindings(cfg.variablesPath, variables, parseToml).error)
    ensures r.Ok? ==>
              var file := FileBindings(cfg.variablesPath, variables, parseToml).value;
              && r.value.Keys == {HostnameKey, UsernameKey, OsKey} + file.Keys + (set f | f in cfg.flags)
              && (forall f :: f in cfg.flags ==> r.value[f] == Bool(true))
              && (forall k :: k in file && k !in cfg.flags ==> r.value[k] == file[k])
              && (forall k :: k in Computed(h) && k !in file && k !in cfg.flags ==> r.value[k] == Computed(h)[k])
  {
    match FileBindings(cfg.variablesPath, variables, parseToml)
    case Err(e) => Err(Single(e))
    case Ok(file) =>
      var computed := Computed(h);
      Layers(computed, file, cfg.flags);
      Ok(computed + file + FlagMap(cfg.flags))
  }

  /** Every flag bound to `true`. */
  function FlagMap(flags: seq<string>): (m: Env)
    ensures m.Keys == set f | f in flags
    ensures forall f :: f in flags ==> m[f] == Bool(true)
  {
    map f | f in flags :: Bool(true)
  }

  /** Later layers win: a flag over everything, the file over the computed bindings. */
  lemma Layers(computed: Env, file: Env, flags: seq<string>)
    ensures var env := computed + file + FlagMap(flags);
            && env.Keys == computed.Keys + file.Keys + (set f | f in flags)
            && (forall f :: f in flags ==> env[f] == Bool(true))
            && (forall k :: k in file && k !in flags ==> env[k] == file[k])
            && (forall k :: k in computed && k !in file && k !in flags ==> env[k] == computed[k])
  {
  }

  // ---------------------------------------------------------------------------
  // The file action

  /** The file-system outcomes the file action meets, per path. */
  datatype BuildFs = BuildFs(
    open: Path -> Result<(), IoError>,                       // `File::open` of a template
    read: Path -> Result<string, IoError>,                   // `read_to_string` of it
    permissions: Path -> Result<bv32, IoError>,              // its metadata's permissions
    create: Path -> Result<(), IoError>,                     // `File::create` of the output
    writeAll: (Path, seq<bv8>) -> Result<(), IoError>,       // `write_all` of the rendered bytes
    setPermissions: (Path, bv32) -> Result<(), IoError>,     // `set_permissions` on the output
    copy: (Path, Path) -> Result<(), IoError>)               // `copy` of a plain file

  /** A file is a template when its extension is exactly `tpl`. */
  predicate IsTemplate(p: Path) {
    PathExtension(p) == Some(TemplateExtension)
  }

  /** Where the file at `rel` of the template tree ends up in the build tree. */
  function OutputPath(cfg: Config, rel: Path): Path {
    var dst := JoinPath(cfg.buildDir, rel);
    if IsTemplate(JoinPath(cfg.templateDir, rel)) then SetExtensionEmpty(dst) else dst
  }

  /** Every step on the template side succeeds: opening, reading and reading the
      permissions of `src`, parsing its text and rendering it with `env`. */
  predicate Renders(fs: BuildFs, engine: Engine, env: Env, src: Path) {
    && fs.open(src).Ok? && fs.read(src).Ok? && fs.permissions(src).Ok?
    && engine.parse(fs.read(src).value).Ok?
    && engine.write(engine.parse(fs.read(src).value).value, env).Ok?
  }

  /** The bytes the template at `src` renders to. */
  function RenderedBytes(fs: BuildFs, engine: Engine, env: Env, src: Path): seq<bv8>
    requires Renders(fs, engine, env, src)
  {
    engine.write(engine.parse(fs.read(src).value).value, env).value
  }

  /** `file`: render a template into its output path, or copy any other file. Failures to
      read, parse or render a template, and failures to copy, are located at the
      template-tree path; failures to create, write or set the permissions of the output
      are located at the output path. */
  function File(cfg: Config, env: Env, fs: BuildFs, engine: Engine, rel: Path): (r: Result<(), LocatedError>)
    ensures r.Err? ==> r.error.location == JoinPath(cfg.templateDir, rel) || r.error.location == OutputPath(cfg, rel)
    ensures var src := JoinPath(cfg.templateDir, rel);
            var copied := fs.copy(src, JoinPath(cfg.buildDir, rel));
            !IsTemplate(src) ==>
              && (r.Ok? <==> copied.Ok?)
              && (copied.Err? ==> r == Err(LocatedError(src, Io(copied.error))))
    ensures var src := JoinPath(cfg.templateDir, rel);
            var out := OutputPath(cfg, rel);
            IsTemplate(src) ==>
              (r.Ok? <==> && Renders(fs, engine, env, src)
                          && fs.create(out).Ok?
                          && fs.writeAll(out, RenderedBytes(fs, engine, env, src)).Ok?
                          && fs.setPermissions(out, fs.permissions(src).value).Ok?)
    // The template side, step by step: every failure is located at the template.
    ensures var src := JoinPath(cfg.templateDir, rel);
            IsTemplate(src) && !Renders(fs, engine, env, src) ==> r.Err? && r.error.location == src
    ensures var src := JoinPath(cfg.templateDir, rel);
            IsTemplate(src) && fs.open(src).Err? ==> r == Err(LocatedError(src, Io(fs.open(src).error)))
    ensures var src := JoinPath(cfg.templateDir, rel);
            IsTemplate(src) && fs.open(src).Ok? && fs.read(src).Err? ==>
              r == Err(LocatedError(src, Io(fs.read(src).error)))
    ensures var src := JoinPath(cfg.templateDir, rel);
            IsTemplate(src) && fs.open(src).Ok? && fs.read(src).Ok? && fs.permissions(src).Err? ==>
              r == Err(LocatedError(src, Io(fs.permissions(src).error)))
    ensures var src := JoinPath(cfg.templateDir, rel);
            IsTemplate(src) && fs.open(src).Ok? && fs.read(src).Ok? && fs.permissions(src).Ok?
            && engine.parse(fs.read(src).value).Err? ==>
              r == Err(LocatedError(src, InnerError.Template(engine.parse(fs.read(src).value).error)))
    ensures var src := JoinPath(cfg.templateDir, rel);
            IsTemplate(src) && fs.open(src).Ok? && fs.read(src).Ok? && fs.permissions(src).Ok?
            && engine.parse(fs.read(src).value).Ok?
            && engine.write(engine.parse(fs.read(src).value).value, env).Err? ==>
              r == Err(LocatedError(src, InnerError.Template(
                                           engine.write(engine.parse(fs.read(src).value).value, env).error)))
    // The output side, once the template renders: every failure is located at the output.
    ensures var src := JoinPath(cfg.templateDir, rel);
            var out := OutputPath(cfg, rel);
            IsTemplate(src) && Renders(fs, engine, env, src) ==>
              && (r.Err? ==> r.error.location == out)
              && (fs.create(out).Err? ==> r == Err(LocatedError(out, Io(fs.create(out).error))))
              && (fs.create(out).Ok? && fs.writeAll(out, RenderedBytes(fs, engine, env, src)).Err? ==>
                    r == Err(LocatedError(out, Io(fs.writeAll(out, RenderedBytes(fs, engine, env, src)).error))))
              && (fs.create(out).Ok? && fs.writeAll(out, RenderedBytes(fs, engine, env, src)).Ok?
                  && fs.setPermissions(out, fs.permissions(src).value).Err? ==>
                    r == Err(LocatedError(out, Io(fs.setPermissions(out, fs.permissions(src).value).error))))
  {
    var src := JoinPath(cfg.templateDir, rel);
    if IsTemplate(src) then
      var out := OutputPath(cfg, rel);
      var _ :- LocateIo(fs.open(src), src);
      var text :- LocateIo(fs.read(src), src);
      var perms :- LocateIo(fs.permissions(src), src);
      var template :- WithLocation(MapTemplateError(engine.parse(text)), src);
      var rendered :- WithLocation(MapTemplateError(engine.write(template, env)), src);
      var _ :- LocateIo(fs.create(out), out);
      var _ :- LocateIo(fs.writeAll(out, rendered), out);
      var _ :- LocateIo(fs.setPermissions(out, perms), out);
      Ok(())
    else
      var _ :- LocateIo(fs.copy(src, JoinPath(cfg.buildDir, rel)), src);
      Ok(())
  }

  /** A template-engine failure as an `InnerError`. */
  function MapTemplateError<T>(r: Result<T, string>): (o: Result<T, InnerError>)
    ensures r.Ok? ==> o == Ok(r.value)
    ensures r.Err? ==> o == Err(InnerError.Template(r.error))
  {
    match r
    case Ok(v) => Ok(v)
    case Err(m) => Err(InnerError.Template(m))
  }

  /** A template named `<stem>.tpl` in directory `dir` is rendered to `<stem>` in the same
      directory of the build tree; any other file keeps its name. */
  lemma OutputPathStripsExtension(cfg: Config, dir: Path, name: string)
    requires !dir.root && IsName(name)
    ensures IsTemplate(JoinPath(cfg.templateDir, JoinPath(dir, Name(name)))) <==> Extension(name) == Some(TemplateExtension)
    ensures Extension(name) != Some(TemplateExtension) ==>
              OutputPath(cfg, JoinPath(dir, Name(name))) == JoinPath(cfg.buildDir, JoinPath(dir, Name(name)))
    ensures Extension(name) == Some(TemplateExtension) && IsName(Stem(name)) ==>
              Components(OutputPath(cfg, JoinPath(dir, Name(name))))
              == Components(JoinPath(cfg.buildDir, dir)) + [Normal(Stem(name))]
  {
    var rel := JoinPath(dir, Name(name));
    JoinPathAssociative(cfg.templateDir, dir, Name(name));
    JoinPathAssociative(cfg.buildDir, dir, Name(name));
    ComponentsPushName(JoinPath(cfg.templateDir, dir), name);
    ComponentsPushName(JoinPath(cfg.buildDir, dir), name);
    if Extension(name) == Some(TemplateExtension) && IsName(Stem(name)) {
      SetExtensionEmptyRenames(JoinPath(cfg.buildDir, rel), name);
    }
  }

  // ---------------------------------------------------------------------------
  // The walk

  /** `dir`: the walk of the template tree that mirrors it into the build tree. */
  function Dir(cfg: Config, env: Env, fs: BuildFs, engine: Engine, rel: Path, node: Walker.Node)
    : (r: Result<(), Errors>)
    ensures r.Err? ==> !IsEmpty(r.error)
    ensures !Walker.MkdirOk(node.mkdir) ==>
              r == Err(Single(LocatedError(JoinPath(cfg.buildDir, rel), Io(node.mkdir.error))))
    ensures r.Ok? <==> Walker.Healthy(cfg.templateDir, Some(cfg.buildDir),
                                      p => File(cfg, env, fs, engine, p), rel, node)
  {
    Walker.DirOkIff(cfg.templateDir, Some(cfg.buildDir), p => File(cfg, env, fs, engine, p), _ => (), rel, node);
    Walker.Dir(cfg.templateDir, Some(cfg.buildDir), p => File(cfg, env, fs, engine, p), _ => (), rel, node)
  }

  /** `build_tree`: build the environment, then walk the whole template tree. A failure
      while building the environment ends the run before any directory is visited. */
  function BuildTree(cfg: Config, h: Host, variables: Result<string, IoError>,
                     parseToml: string -> Result<map<string, TomlValue>, string>,
                     fs: BuildFs, engine: Engine, root: Walker.Node)
    : (r: Result<(), Errors>)
    ensures var env := BuildEnv(cfg, h, variables, parseToml);
            env.Err? ==> r == Err(env.error)
    ensures var env := BuildEnv(cfg, h, variables, parseToml);
            env.Ok? ==> (r.Ok? <==> Walker.Healthy(cfg.templateDir, Some(cfg.buildDir),
                                                   p => File(cfg, env.value, fs, engine, p), Empty, root))
  {
    var env :- BuildEnv(cfg, h, variables, parseToml);
    Dir(cfg, env, fs, engine, Empty, root)
  }
}
