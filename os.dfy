/** The operating system as the relay sees it. Every system call the program
    makes is recorded, with the answer the system gave, in a trace of `Call`
    values; the answers themselves are inputs of the model. */
module Os {
  import opened Wrappers
  import opened CString

  /** Size of `sun_path` in a `sockaddr_un` (Linux). */
  const SUN_PATH_SIZE: nat := 108

  /** The socket address named by a path copied into `sun_path` with
      `strncpy(addr.sun_path, path, sizeof(addr.sun_path))`: a path of 108
      characters or more is cut, unterminated, at 108. */
  function SunPath(path: seq<char>): seq<char>
  {
    Clip(path, SUN_PATH_SIZE)
  }

  /** What `select` reports: an error, or which of the two descriptors are readable. */
  datatype Readiness = SelectError | Ready(socket: bool, stdin: bool)

  /** What `recvfrom` delivers: an error, or the bytes of one datagram. */
  datatype RecvResult = RecvError | Datagram(bytes: seq<char>)

  /** What `sendto` reports: an error, or the number of bytes it sent. */
  datatype SendResult = SendError | SendCount(count: nat)

  /** What `fgets` followed by `feof` tells the program: a read error that is
      not end of file, end of file, or the characters of one line. */
  datatype ReadResult = ReadError | Eof | Got(line: seq<char>)

  datatype Call =
    | SigprocMask(ok: bool)
    | Getcwd(size: nat, cwd: Option<seq<char>>)
    | Mkdtemp(template: seq<char>, dir: Option<seq<char>>)
    | SocketCall(fd: int)
    | Bind(fd: int, address: seq<char>, ok: bool)
    | Select(ready: Readiness)
    | Recvfrom(max: nat, recv: RecvResult)
    | Write(bytes: seq<char>)
    | Fgets(size: nat, read: ReadResult)
    | Sendto(payload: seq<char>, address: seq<char>, sent: SendResult)
    | Close(fd: int, ok: bool)
    | Unlink(path: seq<char>, ok: bool)
    | Rmdir(path: seq<char>, ok: bool)

  /** Everything the calls handed to `write` for standard output, in order;
      every `write` is taken to output all the characters it is given. */
  function Stdout(calls: seq<Call>): seq<char>
  {
    if calls == [] then []
    else (if calls[0].Write? then calls[0].bytes else []) + Stdout(calls[1..])
  }

  lemma {:induction false} StdoutAppend(a: seq<Call>, b: seq<Call>)
    ensures Stdout(a + b) == Stdout(a) + Stdout(b)
  {
    if a == [] {
      assert a + b == b;
    } else {
      assert (a + b)[0] == a[0] && (a + b)[1..] == a[1..] + b;
      StdoutAppend(a[1..], b);
    }
  }

  /** The lines that `fgets` handed to the program, in order. */
  function LinesRead(calls: seq<Call>): seq<seq<char>>
  {
    if calls == [] then []
    else (if calls[0].Fgets? && calls[0].read.Got? then [calls[0].read.line] else []) + LinesRead(calls[1..])
  }

  lemma {:induction false} LinesReadAppend(a: seq<Call>, b: seq<Call>)
    ensures LinesRead(a + b) == LinesRead(a) + LinesRead(b)
  {
    if a == [] {
      assert a + b == b;
    } else {
      assert (a + b)[0] == a[0] && (a + b)[1..] == a[1..] + b;
      LinesReadAppend(a[1..], b);
    }
  }

  /** A sequence of strings joined end to end. */
  function Concat(ss: seq<seq<char>>): seq<char>
  {
    if ss == [] then [] else ss[0] + Concat(ss[1..])
  }

  lemma {:induction false} ConcatAppend(a: seq<seq<char>>, b: seq<seq<char>>)
    ensures Concat(a + b) == Concat(a) + Concat(b)
  {
    if a == [] {
      assert a + b == b;
    } else {
      assert (a + b)[0] == a[0] && (a + b)[1..] == a[1..] + b;
      ConcatAppend(a[1..], b);
    }
  }
}
