/** The local socket's life: `create_socket` makes a scratch directory under
    the working directory and binds a datagram socket at `socket` inside it;
    `delete_socket` closes the socket and removes the file and the directory.
    Both build the socket's path in a 64-character buffer. */
module Lifecycle {
  import opened Wrappers
  import opened CString
  import opened Os

  /** Size of `main`'s `tmp` buffer. */
  const TMP_SIZE: nat := 1024

  /** The size `create_socket` passes to `getcwd`. */
  const GETCWD_SIZE: nat := 512

  /** Size of the `path` buffer of `create_socket` and `delete_socket`. */
  const PATH_SIZE: nat := 64

  /** The name template appended to the working directory. */
  const TEMPLATE: seq<char> := "/gusto.XXXXXX"

  /** The characters `mkdtemp` replaces. */
  const PLACEHOLDER: seq<char> := "XXXXXX"

  /** The socket's name inside the scratch directory. */
  const SOCKET_NAME: seq<char> := "/socket"

  function Zeros(n: nat): (z: seq<char>)
    ensures |z| == n && forall i :: 0 <= i < n ==> z[i] == NUL
  {
    seq(n, _ => NUL)
  }

  /* ---------------------------------------------------------------------
     The socket path
     --------------------------------------------------------------------- */

  /** `strncpy(path, tmp, len)` into the zeroed buffer copies the directory
      without its terminator; the zeroes after it end the string. */
  lemma CopiedDir(dir: seq<char>)
    requires NUL !in dir && |dir| < PATH_SIZE
    ensures StrncpyBuf(Zeros(PATH_SIZE), dir, |dir|) == dir + Zeros(PATH_SIZE - |dir|)
    ensures Str(dir + Zeros(PATH_SIZE - |dir|)) == dir
  {
    StrOfNulFree(dir);
    CopiedDirBuf(dir, Zeros(PATH_SIZE));
    TerminatedByZeros(dir, PATH_SIZE - |dir|);
  }

  /** `strncpy` of a NUL-free source over its own length copies it verbatim. */
  lemma CopiedDirBuf(dir: seq<char>, dst: seq<char>)
    requires Str(dir) == dir && |dir| <= |dst|
    ensures StrncpyBuf(dst, dir, |dir|) == dir + dst[|dir|..]
  {
    var b := StrncpyBuf(dst, dir, |dir|);
    var want := dir + dst[|dir|..];
    assert |b| == |want|;
    forall i | 0 <= i < |b| ensures b[i] == want[i] {
      if i >= |dir| {
        assert want[i] == dst[i];
      }
    }
  }

  /** A NUL-free string followed by at least one zero reads back as itself. */
  lemma TerminatedByZeros(dir: seq<char>, n: nat)
    requires NUL !in dir && 0 < n
    ensures Str(dir + Zeros(n)) == dir
  {
    var z := Zeros(n);
    assert z == [NUL] + z[1..];
    assert dir + z == dir + [NUL] + z[1..];
    StrThroughNul(dir, z[1..]);
  }

  /** The 64 characters of `path` after `memset`, `strncpy(path, tmp, len)`
      and `strncat(path, "/socket", sizeof(path) - len - 1)`, for a directory
      `dir` short enough that neither call runs past the buffer. */
  function SocketPathBuf(dir: seq<char>): (b: seq<char>)
    requires NUL !in dir && |dir| < PATH_SIZE
    ensures |b| == PATH_SIZE && NUL in b
  {
    CopiedDir(dir);
    var copied := StrncpyBuf(Zeros(PATH_SIZE), dir, |dir|);
    var b := StrncatBuf(copied, SOCKET_NAME, SizeSub(SizeSub(PATH_SIZE, |dir|), 1));
    StrncatStr(copied, SOCKET_NAME, SizeSub(SizeSub(PATH_SIZE, |dir|), 1));
    assert b[|Str(b)|] == NUL;
    b
  }

  /** The path the buffer names: the directory followed by as much of
      `/socket` as fits before the last slot. Up to 56 characters of
      directory leave the whole name; 57 to 62 cut it; 63 leave the
      directory itself. */
  lemma SocketPathAsWritten(dir: seq<char>)
    requires NUL !in dir && |dir| < PATH_SIZE
    ensures Str(SocketPathBuf(dir)) == dir + SOCKET_NAME[..Min(PATH_SIZE - 1 - |dir|, |SOCKET_NAME|)]
    ensures |dir| + |SOCKET_NAME| < PATH_SIZE ==> Str(SocketPathBuf(dir)) == dir + SOCKET_NAME
    ensures |dir| == PATH_SIZE - 1 ==> Str(SocketPathBuf(dir)) == dir
  {
    CopiedDir(dir);
    var copied := StrncpyBuf(Zeros(PATH_SIZE), dir, |dir|);
    StrncatStr(copied, SOCKET_NAME, SizeSub(SizeSub(PATH_SIZE, |dir|), 1));
    assert SOCKET_NAME[..|SOCKET_NAME|] == SOCKET_NAME;
  }

  /** Where the socket path names the directory itself. */
  lemma SocketPathIsDirectory()
    ensures var dir := seq(PATH_SIZE - 1, _ => 'd');
      Str(SocketPathBuf(dir)) == dir
  {
    var dir := seq(PATH_SIZE - 1, _ => 'd');
    assert NUL !in dir by {
      forall c | c in dir ensures c != NUL { }
    }
    SocketPathAsWritten(dir);
  }

  /** A fresh zeroed `path` buffer filled as `create_socket` and
      `delete_socket` do; `None` where a directory of 64 characters or more
      makes `strncpy` or `strncat` run past the buffer, which is undefined
      behaviour. */
  method BuildSocketPath(tmp: array<char>) returns (path: Option<array<char>>)
    requires NUL in tmp[..]
    ensures path.None? <==> |Str(tmp[..])| >= PATH_SIZE
    ensures path.Some? ==> fresh(path.value) && path.value[..] == SocketPathBuf(Str(tmp[..]))
  {
    var len := Strlen(tmp);
    if len >= PATH_SIZE {
      return None;
    }
    var buf := new char[PATH_SIZE](_ => NUL);
    ghost var dir := Str(tmp[..]);
    StrOfNulFree(dir);
    assert buf[..] == Zeros(PATH_SIZE);
    Strncpy(buf, tmp, len);
    assert buf[..] == StrncpyBuf(Zeros(PATH_SIZE), dir, |dir|);
    CopiedDir(dir);
    Strncat(buf, SOCKET_NAME, SizeSub(SizeSub(PATH_SIZE, len), 1));
    return Some(buf);
  }

  /** The corrected path: the directory followed by the whole socket name
      and a terminator when that fits in the buffer, and nothing otherwise. */
  function JoinSocketPath(dir: seq<char>): (path: Option<seq<char>>)
    ensures path.Some? <==> |dir| + |SOCKET_NAME| < PATH_SIZE
    ensures path.Some? ==> path.value == dir + SOCKET_NAME
  {
    if |dir| + |SOCKET_NAME| < PATH_SIZE then Some(dir + SOCKET_NAME) else None
  }

  /** The corrected construction: refuses a directory whose socket path does
      not fit, and otherwise builds exactly `JoinSocketPath`. */
  method BuildSocketPathChecked(tmp: array<char>) returns (path: Option<array<char>>)
    requires NUL in tmp[..]
    ensures path.None? <==> JoinSocketPath(Str(tmp[..])).None?
    ensures path.Some? ==>
              fresh(path.value) && NUL in path.value[..] &&
              Str(path.value[..]) == JoinSocketPath(Str(tmp[..])).value
  {
    var len := Strlen(tmp);
    if len + |SOCKET_NAME| >= PATH_SIZE {
      return None;
    }
    path := BuildSocketPath(tmp);
    SocketPathAsWritten(Str(tmp[..]));
  }

  /* ---------------------------------------------------------------------
     The scratch directory
     --------------------------------------------------------------------- */

  /** `tmp` after `getcwd` stored the working directory `cwd` and its
      terminator at its start. */
  function CwdBuf(tmp0: seq<char>, cwd: seq<char>): (b: seq<char>)
    requires NUL !in cwd && |cwd| < |tmp0|
    ensures |b| == |tmp0| && NUL in b && Str(b) == cwd
  {
    StrThroughNul(cwd, tmp0[|cwd| + 1..]);
    StrOfNulFree(cwd);
    assert (cwd + [NUL] + tmp0[|cwd| + 1..])[|cwd|] == NUL;
    cwd + [NUL] + tmp0[|cwd| + 1..]
  }

  /** `getcwd(buf, size)`: stores the working directory when it fits with
      its terminator, and fails otherwise. */
  method GetCwd(buf: array<char>, size: nat, answer: Option<seq<char>>) returns (ok: bool)
    requires size <= buf.Length
    requires answer.Some? ==> NUL !in answer.value
    modifies buf
    ensures ok <==> answer.Some? && |answer.value| < size
    ensures buf[..] == if ok then CwdBuf(old(buf[..]), answer.value) else old(buf[..])
  {
    if answer.None? || |answer.value| >= size {
      return false;
    }
    var cwd := answer.value;
    forall j | 0 <= j < |cwd| {
      buf[j] := cwd[j];
    }
    buf[|cwd|] := NUL;
    ok := true;
  }

  /** The characters of the template `strncat(tmp, "/gusto.XXXXXX", len - 13)`
      appends to a working directory of `len` characters: all of them when
      `len - 13` wraps below 13, otherwise `len - 13` of them, at most 13. */
  function TemplateKept(len: nat): (k: nat)
    requires len < SIZE_MODULUS
    ensures len < |TEMPLATE| ==> k == |TEMPLATE|
    ensures |TEMPLATE| <= len ==> k == Min(len - |TEMPLATE|, |TEMPLATE|)
  {
    Min(SizeSub(len, |TEMPLATE|), |TEMPLATE|)
  }

  /** `tmp` after the template was appended to the working directory. */
  function TemplateBuf(b: seq<char>): (r: seq<char>)
    requires |b| == TMP_SIZE && NUL in b && |Str(b)| < GETCWD_SIZE
    ensures |r| == |b| && NUL in r
    ensures Str(r) == Str(b) + TEMPLATE[..TemplateKept(|Str(b)|)]
  {
    var r := StrncatBuf(b, TEMPLATE, SizeSub(|Str(b)|, |TEMPLATE|));
    StrncatStr(b, TEMPLATE, SizeSub(|Str(b)|, |TEMPLATE|));
    assert r[|Str(r)|] == NUL;
    r
  }

  /** Whether `mkdtemp` accepts a template: it must end in `XXXXXX`. */
  predicate Placeholder(t: seq<char>)
  {
    |t| >= |PLACEHOLDER| && t[|t| - |PLACEHOLDER|..] == PLACEHOLDER
  }

  /** `mkdtemp` gets a usable template exactly when the whole name template
      was appended, which the wrapping limit allows below 13 characters of
      working directory and from 26 on, or when 13 characters of working
      directory, themselves ending in `XXXXXX`, get nothing appended. */
  lemma TemplateAccepted(cwd: seq<char>)
    requires |cwd| < SIZE_MODULUS
    ensures Placeholder(cwd + TEMPLATE[..TemplateKept(|cwd|)]) <==>
      |cwd| < 13 || 26 <= |cwd| || (|cwd| == 13 && cwd[7..] == PLACEHOLDER)
  {
    var k := TemplateKept(|cwd|);
    var t := cwd + TEMPLATE[..k];
    if k == |TEMPLATE| {
      assert TEMPLATE[..k] == TEMPLATE;
      assert t[|t| - 6..] == TEMPLATE[7..];
    } else if k == 0 {
      assert t == cwd;
    } else if k <= 7 {
      assert t[|t| - 1] == TEMPLATE[k - 1] != 'X';
      assert t[|t| - 6..][5] == t[|t| - 1];
    } else {
      assert t[|cwd| + 6] == '.';
      assert t[|t| - 6..][|cwd| + 6 - (|t| - 6)] == '.';
    }
  }

  /** A working directory of 14 characters loses the `XXXXXX` of the
      template, so `mkdtemp` refuses it. */
  lemma TemplateTruncated()
    ensures !Placeholder("/home/user/abc" + TEMPLATE[..TemplateKept(14)])
  {
    TemplateAccepted("/home/user/abc");
  }

  /** The corrected append: the room left in `tmp` as the limit. */
  function TemplateBufChecked(b: seq<char>): (r: seq<char>)
    requires |b| == TMP_SIZE && NUL in b && |Str(b)| < GETCWD_SIZE
    ensures |r| == |b| && NUL in r
    ensures Str(r) == Str(b) + TEMPLATE && Placeholder(Str(r))
  {
    var n := SizeSub(SizeSub(TMP_SIZE, |Str(b)|), 1);
    var r := StrncatBuf(b, TEMPLATE, n);
    StrncatStr(b, TEMPLATE, n);
    assert TEMPLATE[..|TEMPLATE|] == TEMPLATE;
    var s := Str(r);
    assert s[|s| - 6..] == TEMPLATE[7..];
    assert r[|s|] == NUL;
    r
  }

  /** `tmp` after `mkdtemp`: the six placeholder characters replaced by the
      name the system chose, when it accepted the template and made the
      directory; unchanged otherwise. */
  function MkdtempBuf(b: seq<char>, suffix: Option<seq<char>>): (r: seq<char>)
    requires NUL in b
    requires suffix.Some? ==> |suffix.value| == |PLACEHOLDER| && NUL !in suffix.value
    ensures |r| == |b| && NUL in r
    ensures Placeholder(Str(b)) && suffix.Some? ==>
              Str(r) == Str(b)[..|Str(b)| - |PLACEHOLDER|] + suffix.value
    ensures !(Placeholder(Str(b)) && suffix.Some?) ==> r == b
  {
    var s := Str(b);
    if Placeholder(s) && suffix.Some? then
      var r := b[..|s| - 6] + suffix.value + b[|s|..];
      var name := s[..|s| - 6] + suffix.value;
      assert r == name + [NUL] + b[|s| + 1..];
      StrThroughNul(name, b[|s| + 1..]);
      StrOfNulFree(name);
      assert r[|name|] == NUL;
      r
    else b
  }

  /** `mkdtemp(buf)`: refuses a template not ending in `XXXXXX`; otherwise
      the system either makes the directory under a name of its choosing
      (`suffix`) or fails. */
  method MakeTempDir(buf: array<char>, suffix: Option<seq<char>>) returns (ok: bool)
    requires NUL in buf[..]
    requires suffix.Some? ==> |suffix.value| == |PLACEHOLDER| && NUL !in suffix.value
    modifies buf
    ensures ok <==> Placeholder(Str(old(buf[..]))) && suffix.Some?
    ensures buf[..] == MkdtempBuf(old(buf[..]), suffix)
  {
    var len := Strlen(buf);
    if len < |PLACEHOLDER| || buf[len - 6..len] != PLACEHOLDER || suffix.None? {
      return false;
    }
    var name := suffix.value;
    forall j | 0 <= j < |PLACEHOLDER| {
      buf[len - 6 + j] := name[j];
    }
    ok := true;
  }

  /* ---------------------------------------------------------------------
     create_socket and delete_socket
     --------------------------------------------------------------------- */

  /** How a step of the program ended: true, false, or in undefined
      behaviour, past which the model says nothing. */
  datatype Outcome = Done | Failed | Undefined

  /** The system's answers to `create_socket`: the working directory (or a
      `getcwd` error), the name `mkdtemp` picks (or its failure to make the
      directory), the descriptor `socket` returns (-1 on error), and whether
      `bind` succeeds. */
  datatype CreateEnv = CreateEnv(cwd: Option<seq<char>>, suffix: Option<seq<char>>, fd: int, bindOk: bool)

  /** Paths hold no NUL, and `mkdtemp` replaces exactly six characters. */
  predicate ValidCreateEnv(env: CreateEnv)
  {
    (env.cwd.Some? ==> NUL !in env.cwd.value) &&
    (env.suffix.Some? ==> |env.suffix.value| == |PLACEHOLDER| && NUL !in env.suffix.value)
  }

  /** What `create_socket` did: its outcome, the descriptor it stored in
      `*sock` (if it got that far), the `tmp` buffer after it, and its calls. */
  datatype Created = Created(outcome: Outcome, sock: Option<int>, tmp: seq<char>, calls: seq<Call>)

  /** The first half of `create_socket`: the working directory and the
      template in `tmp`, then `mkdtemp`. */
  datatype Scratch = Scratch(made: bool, tmp: seq<char>, calls: seq<Call>)

  function MakeScratch(env: CreateEnv, tmp0: seq<char>): (m: Scratch)
    requires ValidCreateEnv(env) && |tmp0| == TMP_SIZE
    ensures |m.tmp| == TMP_SIZE && (m.made ==> NUL in m.tmp)
  {
    if env.cwd.None? || |env.cwd.value| >= GETCWD_SIZE then
      Scratch(false, tmp0, [Getcwd(GETCWD_SIZE, None)])
    else
      Reserve(env, TemplateBuf(CwdBuf(tmp0, env.cwd.value)))
  }

  /** `mkdtemp` on the template in `b`, once `getcwd` has answered. */
  function Reserve(env: CreateEnv, b: seq<char>): (m: Scratch)
    requires ValidCreateEnv(env) && env.cwd.Some? && NUL in b
    ensures |m.tmp| == |b| && (m.made ==> NUL in m.tmp)
  {
    var template := Str(b);
    if !(Placeholder(template) && env.suffix.Some?) then
      Scratch(false, b, [Getcwd(GETCWD_SIZE, env.cwd), Mkdtemp(template, None)])
    else
      var made := MkdtempBuf(b, env.suffix);
      Scratch(true, made, [Getcwd(GETCWD_SIZE, env.cwd), Mkdtemp(template, Some(Str(made)))])
  }

  function Create(env: CreateEnv, tmp0: seq<char>): Created
    requires ValidCreateEnv(env) && |tmp0| == TMP_SIZE
  {
    CreateFrom(env, MakeScratch(env, tmp0))
  }

  /** The second half of `create_socket`, once `mkdtemp` has answered:
      the socket path, then `socket`, then `bind`. */
  function CreateFrom(env: CreateEnv, m: Scratch): Created
    requires m.made ==> NUL in m.tmp
  {
    if !m.made then Created(Failed, None, m.tmp, m.calls)
    else
      var dir := Str(m.tmp);
      Attach(env, m, if |dir| < PATH_SIZE then Some(SunPath(Str(SocketPathBuf(dir)))) else None)
  }

  /** `socket` and `bind` once the address is known (`None` where building
      the socket path is undefined behaviour). */
  function Attach(env: CreateEnv, m: Scratch, address: Option<seq<char>>): Created
  {
    if address.None? then Created(Undefined, None, m.tmp, m.calls)
    else if env.fd == -1 then Created(Failed, Some(-1), m.tmp, m.calls + [SocketCall(-1)])
    else
      Created(if env.bindOk then Done else Failed, Some(env.fd), m.tmp,
              m.calls + [SocketCall(env.fd), Bind(env.fd, address.value, env.bindOk)])
  }

  /** The first half of `create_socket` on the `tmp` array. */
  method MakeScratchDir(tmp: array<char>, env: CreateEnv) returns (made: bool, calls: seq<Call>)
    requires tmp.Length == TMP_SIZE && ValidCreateEnv(env)
    modifies tmp
    ensures Scratch(made, tmp[..], calls) == MakeScratch(env, old(tmp[..]))
  {
    var ok := GetCwd(tmp, GETCWD_SIZE, env.cwd);
    if !ok {
      return false, [Getcwd(GETCWD_SIZE, None)];
    }
    var cwd := env.cwd.value;
    var len := Strlen(tmp);
    Strncat(tmp, TEMPLATE, SizeSub(len, |TEMPLATE|));
    ghost var b := tmp[..];
    assert b == TemplateBuf(CwdBuf(old(tmp[..]), cwd));
    assert MakeScratch(env, old(tmp[..])) == Reserve(env, b);
    var template := StrOf(tmp);
    made := MakeTempDir(tmp, env.suffix);
    if !made {
      return false, [Getcwd(GETCWD_SIZE, Some(cwd)), Mkdtemp(template, None)];
    }
    var dir := StrOf(tmp);
    calls := [Getcwd(GETCWD_SIZE, Some(cwd)), Mkdtemp(template, Some(dir))];
  }

  /** The address `bind` gets: `path` copied into a zeroed `sun_path`. */
  method SocketAddress(path: array<char>) returns (address: seq<char>)
    requires NUL in path[..]
    ensures address == SunPath(Str(path[..]))
  {
    var sunPath := new char[SUN_PATH_SIZE](_ => NUL);
    assert sunPath[..] == Zeros(SUN_PATH_SIZE);
    Strncpy(sunPath, path, SUN_PATH_SIZE);
    StrncpyStr(Zeros(SUN_PATH_SIZE), path[..]);
    address := StrOf(sunPath);
  }

  /** `create_socket(&sock, tmp)`, proved to behave as `Create`. */
  method CreateSocket(tmp: array<char>, env: CreateEnv) returns (outcome: Outcome, sock: Option<int>, calls: seq<Call>)
    requires tmp.Length == TMP_SIZE && ValidCreateEnv(env)
    modifies tmp
    ensures Created(outcome, sock, tmp[..], calls) == Create(env, old(tmp[..]))
  {
    ghost var m := MakeScratch(env, tmp[..]);
    var made, scratchCalls := MakeScratchDir(tmp, env);
    assert made == m.made && tmp[..] == m.tmp && scratchCalls == m.calls;
    if !made {
      return Failed, None, scratchCalls;
    }
    ghost var dir := Str(tmp[..]);
    var path := BuildSocketPath(tmp);
    if path.None? {
      return Undefined, None, scratchCalls;
    }
    sock := Some(env.fd);
    if env.fd == -1 {
      return Failed, sock, scratchCalls + [SocketCall(-1)];
    }
    var address := SocketAddress(path.value);
    assert address == SunPath(Str(SocketPathBuf(dir)));
    outcome := if env.bindOk then Done else Failed;
    calls := scratchCalls + [SocketCall(env.fd), Bind(env.fd, address, env.bindOk)];
  }

  /** The system's answers to `delete_socket`'s three calls. */
  datatype DeleteEnv = DeleteEnv(closeOk: bool, unlinkOk: bool, rmdirOk: bool)

  datatype Deleted = Deleted(outcome: Outcome, calls: seq<Call>)

  function Delete(sock: int, tmp: seq<char>, env: DeleteEnv): Deleted
    requires NUL in tmp
  {
    var dir := Str(tmp);
    Teardown(sock, dir, if |dir| < PATH_SIZE then Some(Str(SocketPathBuf(dir))) else None, env)
  }

  /** `delete_socket` once the socket path is known (`None` where building
      it is undefined behaviour). */
  function Teardown(sock: int, dir: seq<char>, path: Option<seq<char>>, env: DeleteEnv): Deleted
  {
    if !env.closeOk then Deleted(Failed, [Close(sock, false)])
    else if path.None? then Deleted(Undefined, [Close(sock, true)])
    else if !env.unlinkOk then Deleted(Failed, [Close(sock, true), Unlink(path.value, false)])
    else Deleted(if env.rmdirOk then Done else Failed, [Close(sock, true), Unlink(path.value, true), Rmdir(dir, env.rmdirOk)])
  }

  /** `delete_socket(sock, tmp)`, proved to behave as `Delete`. */
  method DeleteSocket(sock: int, tmp: array<char>, env: DeleteEnv) returns (outcome: Outcome, calls: seq<Call>)
    requires NUL in tmp[..]
    ensures Deleted(outcome, calls) == Delete(sock, tmp[..], env)
  {
    calls := [Close(sock, env.closeOk)];
    if !env.closeOk {
      return Failed, calls;
    }
    var path := BuildSocketPath(tmp);
    if path.None? {
      return Undefined, calls;
    }
    var name := StrOf(path.value);
    calls := calls + [Unlink(name, env.unlinkOk)];
    if !env.unlinkOk {
      return Failed, calls;
    }
    var dir := StrOf(tmp);
    calls := calls + [Rmdir(dir, env.rmdirOk)];
    outcome := if env.rmdirOk then Done else Failed;
  }

  /* ---------------------------------------------------------------------
     Properties of create_socket and delete_socket
     --------------------------------------------------------------------- */

  /** Whether the system reported success for a call of the lifecycle. */
  predicate Succeeded(c: Call)
  {
    match c
    case Getcwd(_, cwd) => cwd.Some?
    case Mkdtemp(_, dir) => dir.Some?
    case SocketCall(fd) => fd != -1
    case Bind(_, _, ok) => ok
    case Close(_, ok) => ok
    case Unlink(_, ok) => ok
    case Rmdir(_, ok) => ok
    case _ => true
  }

  /** Every call but the last succeeded: a failure ends the sequence. */
  predicate StopsAtFailure(calls: seq<Call>)
  {
    forall i :: 0 <= i < |calls| - 1 ==> Succeeded(calls[i])
  }

  /** What the first half of `create_socket` leaves: one or two calls, the
      second, if any, `mkdtemp` on the working directory followed by the kept
      part of the template; the directory is made exactly when both succeed,
      and is named by the template with its placeholder replaced. */
  predicate ScratchShape(env: CreateEnv, m: Scratch)
  {
    ScratchCalls(env, m) && (m.made ==> ScratchDir(env, m))
  }

  /** The calls `create_socket` made before `socket`. */
  predicate ScratchCalls(env: CreateEnv, m: Scratch)
  {
    (|m.calls| == 1 || |m.calls| == 2) && m.calls[0].Getcwd? && m.calls[0].size == GETCWD_SIZE &&
    (m.made <==> |m.calls| == 2 && Succeeded(m.calls[1])) &&
    (|m.calls| == 1 <==> !Succeeded(m.calls[0])) &&
    (|m.calls| == 2 ==>
       env.cwd.Some? && |env.cwd.value| < GETCWD_SIZE && m.calls[0].cwd == env.cwd &&
       m.calls[1].Mkdtemp? &&
       m.calls[1].template == env.cwd.value + TEMPLATE[..TemplateKept(|env.cwd.value|)])
  }

  /** The directory `mkdtemp` made: the template with its placeholder
      replaced, now held in `tmp`. */
  predicate ScratchDir(env: CreateEnv, m: Scratch)
    requires |m.calls| == 2 && m.calls[1].Mkdtemp?
  {
    var t := m.calls[1].template;
    NUL in m.tmp && |t| >= |PLACEHOLDER| && env.suffix.Some? &&
    Str(m.tmp) == t[..|t| - |PLACEHOLDER|] + env.suffix.value && m.calls[1].dir == Some(Str(m.tmp))
  }

  lemma ScratchSteps(env: CreateEnv, tmp0: seq<char>)
    requires ValidCreateEnv(env) && |tmp0| == TMP_SIZE
    ensures ScratchShape(env, MakeScratch(env, tmp0))
  {
    if env.cwd.Some? && |env.cwd.value| < GETCWD_SIZE {
      ReserveSteps(env, TemplateBuf(CwdBuf(tmp0, env.cwd.value)));
    }
  }

  lemma ReserveSteps(env: CreateEnv, b: seq<char>)
    requires ValidCreateEnv(env) && env.cwd.Some? && |env.cwd.value| < GETCWD_SIZE && NUL in b
    requires Str(b) == env.cwd.value + TEMPLATE[..TemplateKept(|env.cwd.value|)]
    ensures ScratchShape(env, Reserve(env, b))
  {
    if Placeholder(Str(b)) && env.suffix.Some? {
      ReserveMade(env, b, Str(b));
      ReserveMadeDir(env, b, Str(b));
    } else {
      var m := Reserve(env, b);
      assert m.calls == [Getcwd(GETCWD_SIZE, env.cwd), Mkdtemp(Str(b), None)];
      assert !m.made && !Succeeded(m.calls[1]);
    }
  }

  lemma ReserveMade(env: CreateEnv, b: seq<char>, template: seq<char>)
    requires ValidCreateEnv(env) && env.cwd.Some? && |env.cwd.value| < GETCWD_SIZE && NUL in b
    requires template == Str(b) == env.cwd.value + TEMPLATE[..TemplateKept(|env.cwd.value|)]
    requires Placeholder(template) && env.suffix.Some?
    ensures var m := Reserve(env, b); m.made && ScratchCalls(env, m)
  {
    var made := MkdtempBuf(b, env.suffix);
    var m := Reserve(env, b);
    assert m == Scratch(true, made, [Getcwd(GETCWD_SIZE, env.cwd), Mkdtemp(template, Some(Str(made)))]);
  }

  lemma ReserveMadeDir(env: CreateEnv, b: seq<char>, template: seq<char>)
    requires ValidCreateEnv(env) && env.cwd.Some? && NUL in b && template == Str(b)
    requires Placeholder(template) && env.suffix.Some?
    ensures var m := Reserve(env, b); |m.calls| == 2 && m.calls[1].Mkdtemp? && ScratchDir(env, m)
  {
    var made := MkdtempBuf(b, env.suffix);
    var m := Reserve(env, b);
    assert m == Scratch(true, made, [Getcwd(GETCWD_SIZE, env.cwd), Mkdtemp(template, Some(Str(made)))]);
  }

  /** `create_socket` calls `getcwd` with 512, then `mkdtemp` on the
      working directory followed by the kept part of the template (see
      `ScratchShape`), then `socket`, then `bind`, and stops at the first
      failure; it returns true exactly when all four succeed. */
  lemma CreateFromSteps(env: CreateEnv, m: Scratch)
    requires ScratchShape(env, m)
    ensures var c := CreateFrom(env, m);
      1 <= |c.calls| <= 4 && StopsAtFailure(c.calls) &&
      c.calls[0].Getcwd? && c.calls[0].size == GETCWD_SIZE &&
      (c.outcome == Failed <==> !Succeeded(c.calls[|c.calls| - 1])) &&
      (c.outcome == Undefined <==> Succeeded(c.calls[|c.calls| - 1]) && |c.calls| == 2) &&
      (c.outcome == Done <==> Succeeded(c.calls[|c.calls| - 1]) && |c.calls| == 4)
    ensures var c := CreateFrom(env, m);
      (|c.calls| >= 2 ==> c.calls[..2] == m.calls) &&
      (|c.calls| >= 3 ==> c.calls[2] == SocketCall(env.fd)) &&
      (|c.calls| == 4 ==> c.calls[3].Bind? && c.calls[3].fd == env.fd && c.calls[3].ok == env.bindOk)
  {
    if !m.made {
      assert CreateFrom(env, m).calls == m.calls;
    } else {
      var dir := Str(m.tmp);
      AttachSteps(env, m, if |dir| < PATH_SIZE then Some(SunPath(Str(SocketPathBuf(dir)))) else None);
    }
  }

  lemma AttachSteps(env: CreateEnv, m: Scratch, address: Option<seq<char>>)
    requires |m.calls| == 2 && m.calls[0].Getcwd? && m.calls[0].size == GETCWD_SIZE
    requires Succeeded(m.calls[0]) && Succeeded(m.calls[1])
    ensures var c := Attach(env, m, address);
      1 <= |c.calls| <= 4 && StopsAtFailure(c.calls) &&
      c.calls[0].Getcwd? && c.calls[0].size == GETCWD_SIZE &&
      (c.outcome == Failed <==> !Succeeded(c.calls[|c.calls| - 1])) &&
      (c.outcome == Undefined <==> Succeeded(c.calls[|c.calls| - 1]) && |c.calls| == 2) &&
      (c.outcome == Done <==> Succeeded(c.calls[|c.calls| - 1]) && |c.calls| == 4) &&
      c.calls[..2] == m.calls &&
      (|c.calls| >= 3 ==> c.calls[2] == SocketCall(env.fd)) &&
      (|c.calls| == 4 ==> c.calls[3] == Bind(env.fd, address.value, env.bindOk))
  {
    var c := Attach(env, m, address);
    if address.None? {
      assert c.calls == m.calls;
    } else if env.fd == -1 {
      assert c.calls == m.calls + [SocketCall(-1)];
      assert c.calls[0] == m.calls[0] && c.calls[1] == m.calls[1] && !Succeeded(c.calls[2]);
    } else {
      assert c.calls == m.calls + [SocketCall(env.fd), Bind(env.fd, address.value, env.bindOk)];
      assert c.calls[0] == m.calls[0] && c.calls[1] == m.calls[1] && Succeeded(c.calls[2]);
    }
  }

  /** When `create_socket` returns true, its last calls are `socket` and
      `bind` at the socket path built in the directory `mkdtemp` made, which
      `tmp` then holds. */
  lemma CreateFromDone(env: CreateEnv, m: Scratch)
    requires ScratchShape(env, m)
    ensures var c := CreateFrom(env, m);
      c.outcome == Done ==>
        var dir := Str(c.tmp);
        c.tmp == m.tmp && m.made && |dir| < PATH_SIZE && c.sock == Some(env.fd) &&
        c.calls == m.calls + [SocketCall(env.fd), Bind(env.fd, Str(SocketPathBuf(dir)), true)]
  {
    var c := CreateFrom(env, m);
    if c.outcome == Done {
      var address := Str(SocketPathBuf(Str(m.tmp)));
      assert SunPath(address) == address;
    }
  }

  /** When `create_socket` returns true, `*sock` holds the descriptor
      `socket` gave and `tmp` a string naming the directory `mkdtemp` made,
      at which `bind` put the socket. */
  predicate CreateShape(env: CreateEnv, c: Created)
  {
    c.outcome == Done ==>
      var dir := Str(c.tmp);
      c.sock == Some(env.fd) && NUL in c.tmp && |dir| < PATH_SIZE &&
      |c.calls| == 4 && c.calls[0].Getcwd? && c.calls[1].Mkdtemp? && c.calls[1].dir == Some(dir) &&
      c.calls[2] == SocketCall(env.fd) &&
      c.calls[3] == Bind(env.fd, Str(SocketPathBuf(dir)), true)
  }

  lemma CreateDone(env: CreateEnv, tmp0: seq<char>)
    requires ValidCreateEnv(env) && |tmp0| == TMP_SIZE
    ensures CreateShape(env, Create(env, tmp0))
  {
    var m := MakeScratch(env, tmp0);
    ScratchSteps(env, tmp0);
    CreateFromDone(env, m);
    var c := CreateFrom(env, m);
    if c.outcome == Done {
      assert c.calls[0] == m.calls[0] && c.calls[1] == m.calls[1];
    }
  }

  /** `delete_socket` closes the socket, then unlinks the socket path built
      in the directory `tmp` holds, then removes that directory, and stops at
      the first failure; it returns true exactly when all three succeed. */
  lemma DeleteSteps(sock: int, tmp: seq<char>, env: DeleteEnv)
    requires NUL in tmp
    ensures var d := Delete(sock, tmp, env);
      1 <= |d.calls| <= 3 && StopsAtFailure(d.calls) &&
      d.calls[0] == Close(sock, env.closeOk) &&
      (|d.calls| >= 2 <==> env.closeOk && |Str(tmp)| < PATH_SIZE) &&
      (|d.calls| >= 2 ==> d.calls[1] == Unlink(Str(SocketPathBuf(Str(tmp))), env.unlinkOk)) &&
      (|d.calls| == 3 <==> |d.calls| >= 2 && env.unlinkOk) &&
      (|d.calls| == 3 ==> d.calls[2] == Rmdir(Str(tmp), env.rmdirOk)) &&
      (d.outcome == Undefined <==> env.closeOk && |Str(tmp)| >= PATH_SIZE) &&
      (d.outcome == Done <==> |d.calls| == 3 && env.rmdirOk) &&
      (d.outcome == Failed <==> !Succeeded(d.calls[|d.calls| - 1]))
  {
    var dir := Str(tmp);
    TeardownSteps(sock, dir, if |dir| < PATH_SIZE then Some(Str(SocketPathBuf(dir))) else None, env);
  }

  /** Given the `tmp` a successful `create_socket` leaves, `delete_socket`
      unlinks exactly the address `bind` used and removes exactly the
      directory `mkdtemp` made. */
  lemma CreateDeleteSamePaths(env: CreateEnv, c: Created, denv: DeleteEnv)
    requires CreateShape(env, c) && c.outcome == Done
    ensures var d := Delete(c.sock.value, c.tmp, denv);
      (|d.calls| >= 2 <==> denv.closeOk) &&
      (|d.calls| >= 2 ==> d.calls[1].Unlink? && d.calls[1].path == c.calls[3].address) &&
      (|d.calls| == 3 ==> d.calls[2].Rmdir? && Some(d.calls[2].path) == c.calls[1].dir)
  {
    DeleteSteps(c.sock.value, c.tmp, denv);
  }

  lemma TeardownSteps(sock: int, dir: seq<char>, path: Option<seq<char>>, env: DeleteEnv)
    ensures var d := Teardown(sock, dir, path, env);
      1 <= |d.calls| <= 3 && StopsAtFailure(d.calls) &&
      d.calls[0] == Close(sock, env.closeOk) &&
      (|d.calls| >= 2 <==> env.closeOk && path.Some?) &&
      (|d.calls| >= 2 ==> d.calls[1] == Unlink(path.value, env.unlinkOk)) &&
      (|d.calls| == 3 <==> |d.calls| >= 2 && env.unlinkOk) &&
      (|d.calls| == 3 ==> d.calls[2] == Rmdir(dir, env.rmdirOk)) &&
      (d.outcome == Undefined <==> env.closeOk && path.None?) &&
      (d.outcome == Done <==> |d.calls| == 3 && env.rmdirOk) &&
      (d.outcome == Failed <==> !Succeeded(d.calls[|d.calls| - 1]))
  {
  }

}
