# gusto — a verified model of the datagram relay

`gusto` is a small client for UNIX datagram sockets, written in C (`src/gusto.c`).
It runs in these steps:

- It takes the path of a target socket on its command line and blocks all signals.
- It makes a private directory `<cwd>/gusto.XXXXXX`, with a socket bound at `socket` inside it.
- It relays traffic until something stops it:
  - each line of standard input goes to the target as one datagram;
  - each datagram that arrives is written to standard output, followed by a newline.
- When the relay stops, it closes the socket and removes the socket file and the directory.

This project models that program in Dafny and proves properties of the model.

## Structure

- Every system call is recorded in a trace of `Os.Call` values.
- The answer the system gave is part of each record. Answers are inputs of the model, so every property holds whatever the system answers. The one exception is `write`, which records no answer: every `write` is taken to output all the characters it is given (see "## Left out").
- `parse_arguments` only decides on its arguments, so it is a function, `Arguments.ParseArguments`.
- `block_all_signals` is one recorded `sigprocmask` call inside `main`.
- `event_loop` is a method with a `while` loop over sequences: its only buffer, the `sun_path` of the target address, is the sequence function `Os.SunPath`.
- Every other C function is a Dafny `method` over the same fixed-size buffers (`array<char>`):
  - the 768-character message buffers of the two transfers;
  - the 1024-character `tmp`;
  - the 64-character `path`;
  - the 108-character `sun_path`.
- Each of these methods is proved equal to a specification function. The properties are proved about that function.

| Dafny module | models |
|---|---|
| `CString` | C strings in buffers: `strlen`, `strncmp`, `strncpy`, `strncat`, `size_t` subtraction that wraps |
| `Os` | the system-call trace, the `sun_path` copy, what the calls handed to `write` for standard output and read from standard input |
| `Arguments` | `parse_arguments` |
| `Transfer` | `handle_outgoing` and `handle_incoming` |
| `Relay` | `event_loop` |
| `Lifecycle` | `create_socket` and `delete_socket` |
| `Process` | `main`, as `Gusto` (a function) and `RunGusto` (a method) |

## Model

| member | source | states |
|---|---|---|
| Arguments.ParseArguments | src/gusto.c:263-301 | accepts exactly when there is one argument and it is not exactly `-h`; an accepted path is that argument unchanged; a refusal stores nothing |
| Arguments.HelpFlagExact | src/gusto.c:274-276 | the 3-character `strncmp` against `-h` is zero exactly for the argument `-h`, so `-hx`, `-` and `-H` are accepted as paths |
| CString.Strncmp | src/gusto.c:275 | zero exactly when the first `n` characters of the two terminated strings agree, counting the terminator and stopping there |
| CString.SizeSub | src/gusto.c:177 | `size_t` subtraction: the plain difference when it is not negative, otherwise wrapped to at least 2^64 minus the subtrahend |
| CString.Strlen | src/gusto.c:56 | the index of the first NUL, which is the length of the string the buffer holds |
| CString.StrOf | src/gusto.c:187 | the characters of a buffer before its first NUL (all of them when it has none), read by a loop: the string `tmp` or `path` names when passed to `mkdtemp`, `bind`, `unlink` or `rmdir` |
| CString.Strncpy | src/gusto.c:189 | the first `n` slots get the source string, padded with NUL; every other slot is unchanged |
| CString.StrncpyStr | src/gusto.c:201 | copying over a whole buffer leaves the source string cut to the buffer's size |
| CString.Strncat | src/gusto.c:177 | at most `n` characters go over the old terminator, followed by a new terminator; everything else is unchanged |
| CString.StrncatStr | src/gusto.c:190 | after `strncat` the string is the old string extended by the `min(n, len)` characters appended |
| Transfer.ReadLine | src/gusto.c:43-53 | `fgets` returns an error, end of file, or the pending input up to and including the first newline, at most size-1 characters, stored with a terminator. End of file leaves the buffer unchanged, and a line leaves every slot after its terminator unchanged |
| Transfer.LineShape | src/gusto.c:44 | the line read is a prefix of the input, within the limit, with a newline only as its last character, and ends early only after a newline |
| Transfer.PayloadShape | src/gusto.c:43-57 | the datagram sent is a prefix of the pending input: at most 767 characters, no NUL, a newline only as its last character, and non-empty unless the input starts with NUL |
| Transfer.OutgoingResult | src/gusto.c:44-71 | end of input: false, nothing sent. A read error: true, nothing sent or consumed. Otherwise `fgets` returns and consumes exactly the line `LineOf` gives (up to and including the first newline, at most 767 characters), the payload is sent to the target, and the result is true exactly when `sendto` reports the payload's full length |
| Transfer.HandleOutgoing | src/gusto.c:33-72 | `handle_outgoing` on its zeroed 768-character buffer computes exactly `Outgoing` |
| Transfer.ReceiveDatagram | src/gusto.c:85-86 | `recvfrom` stores the datagram cut to the requested length and returns that length, or -1 on error. An error leaves the buffer unchanged, and a datagram leaves every slot past its length unchanged |
| Transfer.IncomingEcho | src/gusto.c:85-98 | at most 767 characters are requested. An error writes nothing and returns false. Otherwise exactly the first `min(len, 767)` characters of the datagram are received, and they are handed to `write` followed by one newline |
| Transfer.HandleIncoming | src/gusto.c:78-99 | `handle_incoming` on its zeroed 768-character buffer computes exactly `Incoming` |
| Relay.ServeReady | src/gusto.c:132-148 | one pass after `select`: the socket handler first, then the input handler, and a false result breaks out |
| Relay.EventLoop | src/gusto.c:106-152 | `event_loop` over a sequence of wake-ups computes exactly `RunLoop`, sending to the target path cut to `sun_path` |
| Relay.LoopStopsAtFirstFailure | src/gusto.c:126-151 | no call but the last stops the loop. It returns false exactly after a failed `select`, and true exactly after a handler returned false: end of input, a failed `recvfrom` and an incomplete `sendto` alike |
| Relay.LoopHandlerOrder | src/gusto.c:119-149 | each wake-up starts with `select`. It then runs the socket handler at most once, and only if the socket was readable. It then runs the input handler at most once, and only if standard input was readable. The socket handler never runs after the input handler |
| Relay.LoopConsumesLines | src/gusto.c:142-148 | the lines `fgets` returned, joined, followed by the input still pending, are exactly the input the loop started with |
| Relay.LoopEchoes | src/gusto.c:133-139 | what the loop hands to `write` for standard output is exactly the received datagrams, in order, each followed by one newline |
| Relay.LoopTransfersBounded | src/gusto.c:114-148 | every `fgets` gets 768 slots and every `recvfrom` asks for 767. Every `sendto` goes to the target with the line just read, cut at NUL: at most 767 characters, with a newline only at its end |
| Relay.LoopRelayCalls | src/gusto.c:119-151 | the loop only calls `select`, `recvfrom`, `write`, `fgets` and `sendto`, so it creates and removes no file |
| Lifecycle.GetCwd | src/gusto.c:168-173 | `getcwd` succeeds exactly when the system gives a directory shorter than the size; the buffer then holds it, terminated, and otherwise is unchanged |
| Lifecycle.TemplateKept | src/gusto.c:176-177 | the `len - 13` limit keeps the whole 13-character template when `len < 13`, because the subtraction wraps; otherwise it keeps `min(len - 13, 13)` characters |
| Lifecycle.TemplateBuf | src/gusto.c:175-177 | after the append, `tmp` holds the working directory followed by the kept part of `/gusto.XXXXXX` |
| Lifecycle.TemplateAccepted | src/gusto.c:175-184 | `mkdtemp` gets a template ending in `XXXXXX` exactly when the working directory is shorter than 13 characters or at least 26, or is 13 characters ending in `XXXXXX` |
| Lifecycle.TemplateTruncated | src/gusto.c:176-177 | the 14-character working directory `/home/user/abc` gets a template without `XXXXXX` |
| Lifecycle.TemplateBufChecked | src/gusto.c:177 | with the room left in `tmp` as the limit, the whole template is appended and ends in `XXXXXX` |
| Lifecycle.MkdtempBuf | src/gusto.c:179-184 | when `mkdtemp` accepts the template and makes the directory, the six `X` are replaced by the chosen name; otherwise `tmp` is unchanged |
| Lifecycle.MakeTempDir | src/gusto.c:179-184 | `mkdtemp` succeeds exactly when the template ends in `XXXXXX` and the system makes the directory; the buffer becomes `MkdtempBuf` |
| Lifecycle.CopiedDir | src/gusto.c:187-189 | `strncpy(path, tmp, len)` into the zeroed 64-character buffer copies the directory, and the zeroes after it terminate it |
| Lifecycle.SocketPathBuf | src/gusto.c:186-190 | for a directory shorter than 64 characters, the built `path` stays 64 characters long and terminated |
| Lifecycle.SocketPathAsWritten | src/gusto.c:187-190 | the socket path is the directory followed by as much of `/socket` as fits before the last slot. That is the whole name when the directory has at most 56 characters, and the directory itself at 63 |
| Lifecycle.SocketPathIsDirectory | src/gusto.c:190 | a 63-character directory gets a socket path equal to the directory |
| Lifecycle.BuildSocketPath | src/gusto.c:233-237 | a fresh zeroed `path` filled as both functions fill it holds `SocketPathBuf`; a directory of 64 or more characters is an overrun (`None`) |
| Lifecycle.JoinSocketPath | src/gusto.c:190 | the intended path is the directory followed by `/socket`, defined exactly when it fits the 64-character buffer with its terminator |
| Lifecycle.BuildSocketPathChecked | src/gusto.c:186-190 | the corrected construction refuses exactly the directories `JoinSocketPath` refuses; otherwise it builds that path |
| Lifecycle.SocketAddress | src/gusto.c:199-202 | the address `bind` gets is the path cut to the 108 characters of `sun_path` |
| Lifecycle.MakeScratchDir | src/gusto.c:168-184 | `getcwd`, the template append and `mkdtemp` on `tmp` compute exactly `MakeScratch` |
| Lifecycle.ScratchSteps | src/gusto.c:168-184 | `getcwd` is called with 512 and `mkdtemp` only after it succeeds, on the working directory plus the kept template. On success `tmp` names the template with its placeholder replaced |
| Lifecycle.CreateSocket | src/gusto.c:159-212 | `create_socket` on `tmp` computes exactly `Create`, including `*sock` and the final `tmp` |
| Lifecycle.CreateFromSteps | src/gusto.c:168-211 | `create_socket` calls `getcwd`, `mkdtemp`, `socket` (with the descriptor the system gives) and `bind` (on that descriptor), in that order. It stops at the first failure and returns true exactly when all four succeed; an overrun of `path` ends it after `mkdtemp` |
| Lifecycle.CreateDone | src/gusto.c:159-212 | when `create_socket` returns true, `*sock` is the descriptor and `tmp` names the directory `mkdtemp` made. `bind` put the socket at the path built in that directory |
| Lifecycle.DeleteSocket | src/gusto.c:219-254 | `delete_socket` computes exactly `Delete` |
| Lifecycle.DeleteSteps | src/gusto.c:226-253 | `close`, then `unlink` of the socket path built from `tmp`, then `rmdir` of `tmp`, each only after the previous one succeeded. True exactly when all three succeed |
| Lifecycle.CreateDeleteSamePaths | src/gusto.c:234-247 | with the `tmp` a successful `create_socket` left, `delete_socket` unlinks exactly the address `bind` used and removes exactly the directory `mkdtemp` made |
| Process.RunGusto | src/gusto.c:325-359 | `main` computes exactly `Gusto` |
| Process.ServeThenDelete | src/gusto.c:343-358 | the steps after `create_socket` compute exactly `Served` |
| Process.UsageFails | src/gusto.c:333-336 | a command line other than one non-`-h` argument exits with `EXIT_FAILURE` before any system call, and only such a command line does |
| Process.MainSteps | src/gusto.c:333-358 | `sigprocmask` runs only after a usable command line, and its failure exits with `EXIT_FAILURE`. Otherwise the run is `sigprocmask` followed by `Served`. An exit status is always 0 or 1 |
| Process.ServedSteps | src/gusto.c:343-358 | the loop runs only after `create_socket` returned true, and `delete_socket` only after the loop returned true. `EXIT_SUCCESS` exactly when all three returned true; `EXIT_FAILURE` exactly when one returned false; still running exactly when the loop waits |
| Process.ServedLeavesNothing | src/gusto.c:343-358 | after `create_socket`, a run that exits with `EXIT_SUCCESS` leaves no file or directory behind |
| Process.SuccessLeavesNothing | src/gusto.c:325-359 | any run of `main` that exits with `EXIT_SUCCESS` leaves no file or directory behind |
| Process.SelectErrorLeavesFiles | src/gusto.c:348-351 | a `select` error after a successful `create_socket` exits with `EXIT_FAILURE` and leaves the directory and the socket file behind |

## Left out

- The real `select` and `fd_set` multiplexing, and any fairness between the two descriptors, are not modelled. Each wake-up is an input event saying which descriptors were readable, or that `select` failed.
- Relay.EventLoop: the `while (true)` loop runs over a finite sequence of wake-ups. When they run out, the result is `Waiting` (still blocked in `select`), so a run that never ends is described by its finite prefixes.
- The system calls are not modelled: `getcwd`, `mkdtemp`, `socket`, `bind`, `select`, `recvfrom`, `write`, `fgets`/`feof`, `sendto`, `close`, `unlink`, `rmdir`, `sigprocmask`. Their answers are inputs, and each call is recorded with the answer it got, except `write`, whose result the program ignores.
- Relay.LoopEchoes: every `write` is taken to output all the characters it is given. A short or failed `write` is not modelled, so the lemma speaks of what is handed to `write`. The program ignores the result (it casts it to `void`). With all signals blocked, a `write` to a closed pipe fails with EPIPE and the loop goes on.
- Transfer.IncomingEcho: the same assumption about `write` applies.
- `mkdtemp`'s choice of name is an input: six non-NUL characters that replace `XXXXXX`.
- Lifecycle.MkdtempBuf: a failed `mkdtemp` is modelled as leaving `tmp` unchanged. glibc has by then written its last attempted name over `XXXXXX` when the failure is not a bad template (EACCES, for example). No outcome depends on it, because `create_socket` returns false at once and nothing reads `tmp` afterwards.
- `block_all_signals` is modelled as one `sigprocmask` call that succeeds or fails. The signal mask itself is process state with no effect on the relay.
- The help text, the `STRINGIFY` build metadata, and `perror`/`fprintf` diagnostics are not modelled. They are output text only.
- `sockaddr_un` is not modelled. Its layout and the `AF_UNIX` family are left out; an address is the string in `sun_path`, cut at the 108 characters Linux gives that field.
- Lifecycle.CreateSocket: the model relies on the system's answers being C strings, so it requires a NUL-free working directory and a NUL-free six-character name from `mkdtemp`.
- Arguments.ParseArguments: for the same reason, it requires command-line arguments without NUL.
- Lifecycle.CreateSocket: an overrun of the 64-character `path` is undefined behaviour in C. It is modelled as the outcome `Undefined`, and `main` as `UndefinedBehaviour`; nothing is claimed past it.
- Lifecycle.DeleteSocket: the same overrun is modelled the same way.
- Transfer.HandleOutgoing: a read error that is not end of file is modelled as consuming no input. What a failing `fgets` leaves in the stream is system behaviour.
- Process.RunGusto: the uninitialised contents of `main`'s `tmp` are an input. Only the part after the first terminator ever differs from what `getcwd` writes.

## Findings

The end-to-end model (`Lifecycle.Create`, `Lifecycle.CreateSocket`, `Process.Gusto`) follows the code as written. The corrected members below are proved beside it.

| source | as written | input that shows it | evidently intended | confidence | as-written member | corrected member |
|---|---|---|---|---|---|---|
| src/gusto.c:177 | The `strncat` limit is the working directory's length minus 13. Working directories of 14 to 25 characters therefore keep only part of `/gusto.XXXXXX`, without the `XXXXXX`, and `mkdtemp` refuses the template. At exactly 13 characters nothing is appended | the working directory `/home/user/abc` (14 characters): the template is `/home/user/abc/` | the limit is the room left in `tmp`, so the whole template is always appended | not executed | Lifecycle.TemplateTruncated | Lifecycle.TemplateBufChecked |
| src/gusto.c:189-190 | The limit `sizeof(path) - len - 1` drops the end of `/socket` for directories of 57 to 62 characters (working directories of 44 to 49). A 63-character directory gives a socket path equal to the directory. From 64 characters, `strncpy` leaves `path` unterminated or writes past it, and `strncat` runs past it | a 63-character directory (working directory of 50 characters): `bind` and `unlink` target the directory itself | the socket path is the directory followed by `/socket`, and a directory too long for it is refused | not executed | Lifecycle.SocketPathIsDirectory | Lifecycle.BuildSocketPathChecked |

## Where the code departs from its evident intent

The program evidently means three things. It should exit with `EXIT_SUCCESS` only after a clean end of input. It should send each input line as one datagram, cut at the buffer size. It should never leave its directory or socket file behind. The code does otherwise in the places below, and the model follows the code.

- A handler that returns false makes `event_loop` return true whatever the cause. End of input, a failed `recvfrom` and an incomplete `sendto` therefore all lead to teardown and `EXIT_SUCCESS` when teardown succeeds. Only a `select` error gives `EXIT_FAILURE` (`Relay.LoopStopsAtFirstFailure`, `Process.ServedSteps`).
- An input line longer than 767 characters is not truncated. `fgets` leaves the rest pending, and later wake-ups send it as further datagrams (`Relay.LoopConsumesLines`). Datagrams longer than 767 characters are cut.
- A failed `socket` or `bind` leaves the directory `mkdtemp` made. A `select` error skips `delete_socket` and leaves both the directory and the socket file (`Process.SelectErrorLeavesFiles`). A clean exit leaves nothing (`Process.SuccessLeavesNothing`).
