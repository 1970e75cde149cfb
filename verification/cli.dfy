/** The command line of the GUI application: the flags after the program name choose between
    printing the version, printing the help text, and running the window in one of three ways. */
module CommandLine {
  import opened Common

  /** How the window is run: normally, minimised to the tray, or with protection switched on. */
  datatype Mode = Normal | Minimized | AutoProtect

  datatype Action = PrintVersion | PrintHelp | RunApp(mode: Mode)

  predicate IsVersionFlag(arg: string)
  {
    arg == "--version" || arg == "-v"
  }

  predicate IsHelpFlag(arg: string)
  {
    arg == "--help" || arg == "-h"
  }

  /** A flag that ends the program after printing something. */
  predicate IsExitFlag(arg: string)
  {
    IsVersionFlag(arg) || IsHelpFlag(arg)
  }

  /** The position of the first flag that ends the program, if there is one. */
  function FirstExit(flags: seq<string>): (r: Option<nat>)
    ensures r.Some? ==> r.value < |flags| && IsExitFlag(flags[r.value])
    ensures r.Some? ==> forall j :: 0 <= j < r.value ==> !IsExitFlag(flags[j])
    ensures r.None? ==> forall j :: 0 <= j < |flags| ==> !IsExitFlag(flags[j])
    decreases |flags|
  {
    if flags == [] then None
    else if IsExitFlag(flags[0]) then Some(0)
    else
      match FirstExit(flags[1..])
      case Some(i) => Some(i + 1)
      case None => None
  }

  /** The tray flag wins over the protection flag; with neither the window runs normally. */
  function ModeFor(minimized: bool, autoProtect: bool): (m: Mode)
    ensures m == Minimized <==> minimized
    ensures m == AutoProtect <==> !minimized && autoProtect
    ensures m == Normal <==> !minimized && !autoProtect
  {
    if minimized then Minimized else if autoProtect then AutoProtect else Normal
  }

  /** What the program does with the flags that follow its name: the first version or help flag
      decides, and otherwise the mode depends only on which of the two mode flags occur. */
  function Dispatch(flags: seq<string>): Action
  {
    match FirstExit(flags)
    case Some(i) => if IsVersionFlag(flags[i]) then PrintVersion else PrintHelp
    case None => RunApp(ModeFor("--minimized" in flags, "--auto-protect" in flags))
  }

  /** main: walks the arguments after the program name, remembering the mode flags and stopping
      at the first version or help flag; unknown arguments are skipped. */
  method Launch(args: seq<string>) returns (action: Action)
    requires |args| >= 1
    ensures action == Dispatch(args[1..])
  {
    var startMinimized := false;
    var autoProtect := false;
    var i := 1;
    while i < |args|
      invariant 1 <= i <= |args|
      invariant forall j :: 1 <= j < i ==> !IsExitFlag(args[j])
      invariant startMinimized <==> "--minimized" in args[1..i]
      invariant autoProtect <==> "--auto-protect" in args[1..i]
    {
      var arg := args[i];
      assert args[1..i + 1] == args[1..i] + [arg];
      if arg == "--minimized" {
        startMinimized := true;
      } else if arg == "--auto-protect" {
        autoProtect := true;
      } else if IsVersionFlag(arg) {
        FirstExitAt(args[1..], i - 1);
        return PrintVersion;
      } else if IsHelpFlag(arg) {
        FirstExitAt(args[1..], i - 1);
        return PrintHelp;
      }
      i := i + 1;
    }
    assert args[1..i] == args[1..];
    NoExit(args[1..]);
    action := RunApp(ModeFor(startMinimized, autoProtect));
  }

  /** An exit flag with none before it is the first one. */
  lemma {:induction false} FirstExitAt(flags: seq<string>, k: nat)
    requires k < |flags| && IsExitFlag(flags[k])
    requires forall j :: 0 <= j < k ==> !IsExitFlag(flags[j])
    ensures FirstExit(flags) == Some(k)
    decreases k
  {
    if k > 0 {
      FirstExitAt(flags[1..], k - 1);
    }
  }

  /** Without exit flags there is no first one. */
  lemma {:induction false} NoExit(flags: seq<string>)
    requires forall j :: 0 <= j < |flags| ==> !IsExitFlag(flags[j])
    ensures FirstExit(flags) == None
    decreases |flags|
  {
    if flags != [] {
      NoExit(flags[1..]);
    }
  }

  /** Arguments after the first exit flag are never looked at. */
  lemma ExitIgnoresTheRest(flags: seq<string>, k: nat, rest: seq<string>)
    requires k < |flags| && IsExitFlag(flags[k])
    requires forall j :: 0 <= j < k ==> !IsExitFlag(flags[j])
    ensures Dispatch(flags) == Dispatch(flags[..k + 1] + rest)
  {
    FirstExitAt(flags, k);
    FirstExitAt(flags[..k + 1] + rest, k);
  }

  /** Without an exit flag, repeating or reordering the flags does not change the mode: only the
      set of flags matters. */
  lemma ModeIgnoresOrder(flags: seq<string>, others: seq<string>)
    requires forall j :: 0 <= j < |flags| ==> !IsExitFlag(flags[j])
    requires forall a :: a in flags <==> a in others
    ensures Dispatch(flags) == Dispatch(others)
  {
    NoExit(flags);
    forall j | 0 <= j < |others| ensures !IsExitFlag(others[j]) {
      assert others[j] in flags;
    }
    NoExit(others);
  }

  /** The tray flag selects the tray mode even when the protection flag is also given. */
  lemma MinimizedWins(flags: seq<string>)
    requires forall j :: 0 <= j < |flags| ==> !IsExitFlag(flags[j])
    requires "--minimized" in flags
    ensures Dispatch(flags) == RunApp(Minimized)
  {
    NoExit(flags);
  }
}
