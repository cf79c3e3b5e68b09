/** The command line: exactly one argument, the path of the target socket,
    unless that argument asks for help. */
module Arguments {
  import opened Wrappers
  import opened CString

  /** The help flag, compared with `strncmp` over three characters, so that
      its terminator takes part in the comparison. */
  const HELP: seq<char> := "-h"

  /** C strings cannot hold a NUL. */
  predicate ValidArgv(argv: seq<seq<char>>)
  {
    forall i :: 0 <= i < |argv| ==> NUL !in argv[i]
  }

  /** Comparing three characters of two C strings, one of them `-h`, matches
      only `-h` itself: a longer argument such as `-hx` differs in the third. */
  lemma HelpFlagExact(arg: seq<char>)
    requires NUL !in arg
    ensures Strncmp(arg, HELP, 3) == 0 <==> arg == HELP
  {
    var lhs := (arg + [NUL])[..Min(3, |arg| + 1)];
    var rhs := (HELP + [NUL])[..Min(3, |HELP| + 1)];
    assert rhs == ['-', 'h', NUL];
    if lhs == rhs {
      assert |arg| >= 2;
      assert (arg + [NUL])[2] == NUL;
      assert forall j :: 0 <= j < |arg| ==> (arg + [NUL])[j] == arg[j];
      assert |arg| == 2;
      assert arg == [lhs[0], lhs[1]];
    }
    if arg == HELP {
      assert arg + [NUL] == ['-', 'h', NUL];
    }
  }

  /** `parse_arguments`: `None` is a false return that leaves the output
      path untouched; `Some(p)` is a true return that stores `p`. */
  function ParseArguments(argv: seq<seq<char>>): (path: Option<seq<char>>)
    requires ValidArgv(argv)
    ensures path.Some? <==> |argv| == 2 && argv[1] != HELP
    ensures path.Some? ==> path.value == argv[1]
  {
    if |argv| != 2 then None
    else
      HelpFlagExact(argv[1]);
      if Strncmp(argv[1], HELP, 3) == 0 then None
      else Some(argv[1])
  }
}
