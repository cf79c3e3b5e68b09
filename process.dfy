/** `main`: parse the command line, block all signals, create the local
    socket, run the relay loop, delete the socket; the first step that
    returns false ends the program with `EXIT_FAILURE`. */
module Process {
  import opened Wrappers
  import opened CString
  import opened Os
  import opened Arguments
  import opened Relay
  import opened Lifecycle

  const EXIT_SUCCESS: int := 0
  const EXIT_FAILURE: int := 1

  /** How a run ended: with an exit status; still waiting in `select` when
      the wake-ups given ran out; or in undefined behaviour. */
  datatype Status = Exited(code: int) | StillWaiting | UndefinedBehaviour

  /** Everything the system answers during one run: whether `sigprocmask`
      succeeds, the answers to `create_socket`, the uninitialised contents
      of `main`'s `tmp` buffer, the pending standard input, the loop's
      wake-ups, and the answers to `delete_socket`. */
  datatype Env = Env(blockOk: bool, create: CreateEnv, frame: seq<char>, input: seq<char>,
                     events: seq<Event>, delete: DeleteEnv)

  predicate ValidEnv(env: Env)
  {
    ValidCreateEnv(env.create) && |env.frame| == TMP_SIZE
  }

  datatype Run = Run(status: Status, calls: seq<Call>)

  /** The run once `create_socket` has answered `c`, for the target `srv`. */
  function Served(srv: seq<char>, env: Env, c: Created): Run
    requires c.outcome == Done ==> c.sock.Some? && NUL in c.tmp
  {
    if c.outcome == Lifecycle.Undefined then Run(UndefinedBehaviour, c.calls)
    else if c.outcome == Failed then Run(Exited(EXIT_FAILURE), c.calls)
    else Finish(c.calls, RunLoop(SunPath(srv), env.input, env.events), Delete(c.sock.value, c.tmp, env.delete))
  }

  /** The run after a successful `create_socket` with calls `created`, given
      how the loop ended (`l`) and what `delete_socket` would answer (`d`):
      the teardown only happens after the loop returned true. */
  function Finish(created: seq<Call>, l: LoopRun, d: Deleted): Run
  {
    if l.end == Waiting then Run(StillWaiting, created + l.calls)
    else if !l.end.value then Run(Exited(EXIT_FAILURE), created + l.calls)
    else
      var status := match d.outcome
        case Done => Exited(EXIT_SUCCESS)
        case Failed => Exited(EXIT_FAILURE)
        case Undefined => UndefinedBehaviour;
      Run(status, created + l.calls + d.calls)
  }

  function Gusto(argv: seq<seq<char>>, env: Env): Run
    requires ValidArgv(argv) && ValidEnv(env)
  {
    var srv := ParseArguments(argv);
    if srv.None? then Run(Exited(EXIT_FAILURE), [])
    else if !env.blockOk then Run(Exited(EXIT_FAILURE), [SigprocMask(false)])
    else
      CreateDone(env.create, env.frame);
      var r := Served(srv.value, env, Create(env.create, env.frame));
      Run(r.status, [SigprocMask(true)] + r.calls)
  }

  /** `main(argc, argv)`, proved to behave as `Gusto`. */
  method RunGusto(argv: seq<seq<char>>, env: Env) returns (status: Status, calls: seq<Call>)
    requires ValidArgv(argv) && ValidEnv(env)
    ensures Run(status, calls) == Gusto(argv, env)
  {
    var srv := ParseArguments(argv);
    if srv.None? {
      return Exited(EXIT_FAILURE), [];
    }
    if !env.blockOk {
      return Exited(EXIT_FAILURE), [SigprocMask(false)];
    }
    var tmp := new char[TMP_SIZE](i requires 0 <= i < TMP_SIZE => env.frame[i]);
    assert tmp[..] == env.frame;
    ghost var c := Create(env.create, env.frame);
    CreateDone(env.create, env.frame);
    var created, sock, createCalls := CreateSocket(tmp, env.create);
    assert c == Created(created, sock, tmp[..], createCalls);
    var rest;
    rest, calls := ServeThenDelete(srv.value, env, created, sock, tmp, createCalls);
    status, calls := rest, [SigprocMask(true)] + calls;
  }

  /** The steps of `main` after `create_socket`, on its results. */
  method ServeThenDelete(srv: seq<char>, env: Env, created: Outcome, sock: Option<int>, tmp: array<char>,
                         createCalls: seq<Call>) returns (status: Status, calls: seq<Call>)
    requires CreateShape(env.create, Created(created, sock, tmp[..], createCalls))
    ensures Run(status, calls) == Served(srv, env, Created(created, sock, tmp[..], createCalls))
  {
    if created == Lifecycle.Undefined {
      return UndefinedBehaviour, createCalls;
    }
    if created == Failed {
      return Exited(EXIT_FAILURE), createCalls;
    }
    var end, rest, loopCalls := EventLoop(srv, env.input, env.events);
    calls := createCalls + loopCalls;
    if end == Waiting {
      return StillWaiting, calls;
    }
    if !end.value {
      return Exited(EXIT_FAILURE), calls;
    }
    var deleted, deleteCalls := DeleteSocket(sock.value, tmp, env.delete);
    calls := calls + deleteCalls;
    status := match deleted
      case Done => Exited(EXIT_SUCCESS)
      case Failed => Exited(EXIT_FAILURE)
      case Undefined => UndefinedBehaviour;
  }

  /* ---------------------------------------------------------------------
     Properties of main
     --------------------------------------------------------------------- */

  /** A command line that is not exactly one argument other than `-h` ends
      the program with `EXIT_FAILURE` before any system call. */
  lemma UsageFails(argv: seq<seq<char>>, env: Env)
    requires ValidArgv(argv) && ValidEnv(env)
    ensures var r := Gusto(argv, env);
      (r.calls == [] <==> |argv| != 2 || argv[1] == HELP) &&
      (r.calls == [] ==> r.status == Exited(EXIT_FAILURE))
  {
  }

  /** `main` blocks signals only after a usable command line, and stops
      with `EXIT_FAILURE` when that fails; otherwise the rest of the run is
      `Served` (see `ServedSteps`). */
  lemma MainSteps(argv: seq<seq<char>>, env: Env)
    requires ValidArgv(argv) && ValidEnv(env)
    ensures |argv| == 2 && argv[1] != HELP && !env.blockOk ==>
              Gusto(argv, env) == Run(Exited(EXIT_FAILURE), [SigprocMask(false)])
    ensures |argv| == 2 && argv[1] != HELP && env.blockOk ==>
              CreateShape(env.create, Create(env.create, env.frame)) &&
              var s := Served(argv[1], env, Create(env.create, env.frame));
              Gusto(argv, env) == Run(s.status, [SigprocMask(true)] + s.calls)
    ensures var r := Gusto(argv, env);
      r.status.Exited? ==> r.status.code == EXIT_SUCCESS || r.status.code == EXIT_FAILURE
  {
    CreateDone(env.create, env.frame);
    if |argv| == 2 && argv[1] != HELP && env.blockOk {
      ServedSteps(argv[1], env, Create(env.create, env.frame));
    }
  }

  /** After `create_socket` answered `c`: the loop runs only when it
      returned true, and `delete_socket` only when the loop returned true;
      the run exits with `EXIT_SUCCESS` exactly when all of them return
      true, with `EXIT_FAILURE` exactly when one returns false, and is
      still running exactly when the loop is still waiting. */
  lemma ServedSteps(srv: seq<char>, env: Env, c: Created)
    requires CreateShape(env.create, c)
    ensures var s := Served(srv, env, c);
      var l := RunLoop(SunPath(srv), env.input, env.events);
      var deleted := c.outcome == Done && l.end == Returned(true);
      (s.status.Exited? ==> s.status.code == EXIT_SUCCESS || s.status.code == EXIT_FAILURE) &&
      (s.status == Exited(EXIT_SUCCESS) <==>
         deleted && Delete(c.sock.value, c.tmp, env.delete).outcome == Done) &&
      (s.status == Exited(EXIT_FAILURE) <==>
         c.outcome == Failed || (c.outcome == Done && l.end == Returned(false)) ||
         (deleted && Delete(c.sock.value, c.tmp, env.delete).outcome == Failed)) &&
      (s.status == StillWaiting <==> c.outcome == Done && l.end == Waiting)
    ensures var s := Served(srv, env, c);
      var l := RunLoop(SunPath(srv), env.input, env.events);
      |c.calls| <= |s.calls| && s.calls[..|c.calls|] == c.calls &&
      (c.outcome == Done ==> |c.calls| + |l.calls| <= |s.calls| && s.calls[|c.calls|..][..|l.calls|] == l.calls) &&
      (c.outcome == Done && l.end == Returned(true) ==>
         s.calls == c.calls + l.calls + Delete(c.sock.value, c.tmp, env.delete).calls)
  {
    ServedCalls(srv, env, c);
  }

  lemma ServedCalls(srv: seq<char>, env: Env, c: Created)
    requires CreateShape(env.create, c)
    ensures var s := Served(srv, env, c);
      var l := RunLoop(SunPath(srv), env.input, env.events);
      |c.calls| <= |s.calls| && s.calls[..|c.calls|] == c.calls &&
      (c.outcome == Done ==> |c.calls| + |l.calls| <= |s.calls| && s.calls[|c.calls|..][..|l.calls|] == l.calls) &&
      (c.outcome == Done && l.end == Returned(true) ==>
         s.calls == c.calls + l.calls + Delete(c.sock.value, c.tmp, env.delete).calls)
  {
    if c.outcome == Done {
      FinishCalls(c.calls, RunLoop(SunPath(srv), env.input, env.events), Delete(c.sock.value, c.tmp, env.delete));
    } else {
      Pieces(c.calls, [], []);
    }
  }

  lemma FinishCalls(created: seq<Call>, l: LoopRun, d: Deleted)
    ensures var s := Finish(created, l, d);
      |created| + |l.calls| <= |s.calls| &&
      s.calls[..|created|] == created && s.calls[|created|..][..|l.calls|] == l.calls &&
      (l.end == Returned(true) ==> s.calls == created + l.calls + d.calls)
  {
    if l.end == Returned(true) {
      Pieces(created, l.calls, d.calls);
    } else {
      Pieces(created, l.calls, []);
    }
  }

  lemma Pieces(a: seq<Call>, b: seq<Call>, c: seq<Call>)
    ensures a + b + c == (a + b) + c && a + b == a + b + []
    ensures (a + b + c)[..|a|] == a && (a + b + c)[|a|..][..|b|] == b
    ensures (a + b)[..|a|] == a && (a + b)[|a|..][..|b|] == b
  {
    assert (a + b + c)[|a|..] == b + c;
    assert (a + b)[|a|..] == b;
  }

  /* ---------------------------------------------------------------------
     Files left behind
     --------------------------------------------------------------------- */

  /** The files and directories a call creates or removes: `mkdtemp` makes
      a directory, `bind` the socket file, `unlink` and `rmdir` remove them. */
  function Effect(files: set<seq<char>>, c: Call): set<seq<char>>
  {
    match c
    case Mkdtemp(_, Some(dir)) => files + {dir}
    case Bind(_, address, true) => files + {address}
    case Unlink(path, true) => files - {path}
    case Rmdir(path, true) => files - {path}
    case _ => files
  }

  function Apply(files: set<seq<char>>, calls: seq<Call>): set<seq<char>>
    decreases |calls|
  {
    if calls == [] then files else Apply(Effect(files, calls[0]), calls[1..])
  }

  /** The files and directories a run leaves behind. */
  function Residue(calls: seq<Call>): set<seq<char>>
  {
    Apply({}, calls)
  }

  lemma {:induction false} ApplyAppend(files: set<seq<char>>, a: seq<Call>, b: seq<Call>)
    decreases |a|
    ensures Apply(files, a + b) == Apply(Apply(files, a), b)
  {
    if a == [] {
      assert a + b == b;
    } else {
      assert (a + b)[0] == a[0] && (a + b)[1..] == a[1..] + b;
      ApplyAppend(Effect(files, a[0]), a[1..], b);
    }
  }

  /** The relay loop leaves the file system as it found it. */
  lemma {:induction false} ApplyRelay(files: set<seq<char>>, calls: seq<Call>)
    requires RelayCalls(calls)
    decreases |calls|
    ensures Apply(files, calls) == files
  {
    if calls != [] {
      assert RelayCall(calls[0]);
      assert RelayCalls(calls[1..]) by {
        forall i | 0 <= i < |calls[1..]| ensures RelayCall(calls[1..][i]) {
          assert calls[1..][i] == calls[i + 1];
        }
      }
      ApplyRelay(files, calls[1..]);
    }
  }

  lemma ApplyOne(files: set<seq<char>>, c: Call)
    ensures Apply(files, [c]) == Effect(files, c)
  {
    assert [c][1..] == [];
  }

  lemma ApplyPair(files: set<seq<char>>, a: Call, b: Call)
    ensures Apply(files, [a, b]) == Effect(Effect(files, a), b)
  {
    assert [a, b] == [a] + [b];
    ApplyAppend(files, [a], [b]);
    ApplyOne(files, a);
    ApplyOne(Effect(files, a), b);
  }

  /** `getcwd`, `mkdtemp`, `socket`, `bind`, all successful, leave the
      directory and the socket file. */
  lemma ApplyCreated(calls: seq<Call>, dir: seq<char>, fd: int, path: seq<char>)
    requires |calls| == 4 && calls[0].Getcwd? && calls[1].Mkdtemp? && calls[1].dir == Some(dir)
    requires calls[2] == SocketCall(fd) && calls[3] == Bind(fd, path, true)
    ensures Apply({}, calls) == {dir, path}
  {
    assert calls == [calls[0], calls[1]] + [calls[2], calls[3]];
    ApplyAppend({}, [calls[0], calls[1]], [calls[2], calls[3]]);
    ApplyPair({}, calls[0], calls[1]);
    ApplyPair({dir}, calls[2], calls[3]);
    assert Effect({}, calls[0]) == {};
    assert Effect({}, calls[1]) == {dir};
    assert Effect(Effect({dir}, calls[2]), calls[3]) == {dir} + {path};
  }

  /** `close`, `unlink` and `rmdir`, all successful, remove the socket file
      and the directory. */
  lemma ApplyDeleted(files: set<seq<char>>, calls: seq<Call>, dir: seq<char>, fd: int, path: seq<char>)
    requires calls == [Close(fd, true), Unlink(path, true), Rmdir(dir, true)]
    ensures Apply(files, calls) == files - {path} - {dir}
  {
    assert calls == [calls[0], calls[1]] + [calls[2]];
    ApplyAppend(files, [calls[0], calls[1]], [calls[2]]);
    ApplyPair(files, calls[0], calls[1]);
    ApplyOne(files - {path}, calls[2]);
  }

  /** A run that `create_socket` answered with `c` and that ends with
      `EXIT_SUCCESS` leaves no file or directory behind: `delete_socket`
      removes the very socket file and directory `create_socket` made. */
  lemma ServedLeavesNothing(srv: seq<char>, env: Env, c: Created)
    requires CreateShape(env.create, c)
    ensures var s := Served(srv, env, c);
      s.status == Exited(EXIT_SUCCESS) ==> Apply({}, s.calls) == {}
  {
    var s := Served(srv, env, c);
    if s.status == Exited(EXIT_SUCCESS) {
      ServedSteps(srv, env, c);
      var l := RunLoop(SunPath(srv), env.input, env.events);
      var d := Delete(c.sock.value, c.tmp, env.delete);
      var dir := Str(c.tmp);
      var path := Str(SocketPathBuf(dir));
      DeleteSteps(c.sock.value, c.tmp, env.delete);
      assert d.calls == [Close(c.sock.value, true), Unlink(path, true), Rmdir(dir, true)];
      ApplyCreated(c.calls, dir, env.create.fd, path);
      ApplyAppend({}, c.calls, l.calls);
      ApplyAppend({}, c.calls + l.calls, d.calls);
      LoopRelayCalls(SunPath(srv), env.input, env.events);
      ApplyRelay({dir, path}, l.calls);
      ApplyDeleted({dir, path}, d.calls, dir, c.sock.value, path);
    }
  }

  /** A run that ends with `EXIT_SUCCESS` leaves no file or directory behind. */
  lemma SuccessLeavesNothing(argv: seq<seq<char>>, env: Env)
    requires ValidArgv(argv) && ValidEnv(env)
    ensures var r := Gusto(argv, env);
      r.status == Exited(EXIT_SUCCESS) ==> Residue(r.calls) == {}
  {
    var r := Gusto(argv, env);
    MainSteps(argv, env);
    if r.status == Exited(EXIT_SUCCESS) {
      var c := Create(env.create, env.frame);
      var s := Served(argv[1], env, c);
      ServedLeavesNothing(argv[1], env, c);
      ApplyAppend({}, [SigprocMask(true)], s.calls);
      ApplyOne({}, SigprocMask(true));
    }
  }

  /** A `select` error after `create_socket` succeeded ends the program with
      `EXIT_FAILURE` without `delete_socket`, leaving the directory and the
      socket file behind. */
  lemma SelectErrorLeavesFiles(srv: seq<char>, env: Env, c: Created)
    requires CreateShape(env.create, c)
    ensures var s := Served(srv, env, c);
      var l := RunLoop(SunPath(srv), env.input, env.events);
      c.outcome == Done && l.end == Returned(false) ==>
        s.status == Exited(EXIT_FAILURE) &&
        Apply({}, s.calls) == {Str(c.tmp), Str(SocketPathBuf(Str(c.tmp)))}
  {
    var s := Served(srv, env, c);
    var l := RunLoop(SunPath(srv), env.input, env.events);
    if c.outcome == Done && l.end == Returned(false) {
      var dir := Str(c.tmp);
      var path := Str(SocketPathBuf(dir));
      assert s.calls == c.calls + l.calls;
      ApplyCreated(c.calls, dir, env.create.fd, path);
      ApplyAppend({}, c.calls, l.calls);
      LoopRelayCalls(SunPath(srv), env.input, env.events);
      ApplyRelay({dir, path}, l.calls);
    }
  }
}
