/** The run configuration the core borrows (`Config` in src/main.rs): the three roots,
    the variables file and the boolean flags from the command line. */
module Configuration {
  import opened Paths

  datatype Config = Config(
    templateDir: Path,
    buildDir: Path,
    linkDir: Path,
    variablesPath: Path,
    flags: seq<string>)
}
