/** Version strings. The build variables, set by the linker in the source, are parameters. */
module VersionInfo {

  const AppName: string := "Click Guardian"
  /** Length of the abbreviated commit hash shown in the full version string. */
  const ShortCommitLength: nat := 8

  /** min: the smaller of the two. */
  function Min(a: int, b: int): (m: int)
    ensures m <= a && m <= b
    ensures m == a || m == b
  {
    if a < b then a else b
  }

  /** GetVersionString: a development build is labelled as one, a release shows its version. */
  function GetVersionString(version: string): (s: string)
    ensures version == "dev" ==> s == "dev (development build)"
    ensures version != "dev" ==> s == version
  {
    if version == "dev" then version + " (development build)" else version
  }

  /** The commit shown by GetFullVersionString: at most its first eight characters, and the whole
      hash when it is shorter, so a short hash never slices out of range. */
  function ShortCommit(commit: string): (c: string)
    ensures c <= commit
    ensures |c| == Min(|commit|, ShortCommitLength)
    ensures |commit| <= ShortCommitLength ==> c == commit
  {
    commit[..Min(|commit|, ShortCommitLength)]
  }

  /** GetFullVersionString: name, version, build time, short commit, Go version, OS and
      architecture, in one line. */
  function GetFullVersionString(version: string, buildTime: string, gitCommit: string,
                                goVersion: string, platform: string, arch: string): (s: string)
    ensures AppName + " v" + version + " (built " + buildTime + ", commit " <= s
    ensures |s| > 0 && s[|s| - 1] == ')'
  {
    AppName + " v" + version + " (built " + buildTime + ", commit " + ShortCommit(gitCommit)
      + ", " + goVersion + " " + platform + "/" + arch + ")"
  }
}
