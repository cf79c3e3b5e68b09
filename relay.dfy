/** The relay loop: wait with `select` on the local socket and standard
    input, serve the socket first and standard input second, and stop at
    the first handler that returns false. */
module Relay {
  import opened CString
  import opened Os
  import opened Transfer

  /** One wake-up of the loop: what `select` reported, and the answers the
      system gives to the handlers that wake-up runs. */
  datatype Event = Event(ready: Readiness, recv: RecvResult, readFails: bool, send: SendResult)

  /** The outcome of one pass through the loop body after `select`. */
  datatype Pass = Pass(proceed: bool, rest: seq<char>, calls: seq<Call>)

  /** The loop body once `select` has reported readiness. */
  function Serve(target: seq<char>, input: seq<char>, e: Event): Pass
    requires e.ready.Ready?
  {
    var inc := if e.ready.socket then Incoming(e.recv) else Inbound(true, []);
    if !inc.ok then Pass(false, input, inc.calls)
    else if e.ready.stdin then
      var out := Outgoing(input, e.readFails, e.send, target);
      Pass(out.ok, out.rest, inc.calls + out.calls)
    else Pass(true, input, inc.calls)
  }

  /** How the loop ended: it returned a value, or the events ran out while
      it was still waiting in `select`. */
  datatype LoopEnd = Returned(value: bool) | Waiting

  datatype LoopRun = LoopRun(end: LoopEnd, rest: seq<char>, calls: seq<Call>)

  /** `event_loop` over the wake-ups `events`, sending to `target`, with
      `input` pending on standard input. */
  function RunLoop(target: seq<char>, input: seq<char>, events: seq<Event>): LoopRun
    decreases |events|
  {
    if events == [] then LoopRun(Waiting, input, [])
    else
      var e := events[0];
      if e.ready.SelectError? then LoopRun(Returned(false), input, [Select(SelectError)])
      else
        var p := Serve(target, input, e);
        if !p.proceed then LoopRun(Returned(true), p.rest, [Select(e.ready)] + p.calls)
        else
          var r := RunLoop(target, p.rest, events[1..]);
          LoopRun(r.end, r.rest, [Select(e.ready)] + p.calls + r.calls)
  }

  /** One unfolding of `RunLoop` at a wake-up with readiness. */
  lemma RunLoopReady(target: seq<char>, input: seq<char>, events: seq<Event>)
    requires events != [] && events[0].ready.Ready?
    ensures var p := Serve(target, input, events[0]);
      RunLoop(target, input, events).calls ==
        [Select(events[0].ready)] + p.calls + (if p.proceed then RunLoop(target, p.rest, events[1..]).calls else [])
  {
  }

  function After(prefix: seq<Call>, r: LoopRun): LoopRun
  {
    LoopRun(r.end, r.rest, prefix + r.calls)
  }

  lemma AfterAfter(a: seq<Call>, b: seq<Call>, r: LoopRun)
    ensures After(a, After(b, r)) == After(a + b, r)
  {
    assert a + (b + r.calls) == (a + b) + r.calls;
  }

  /** The body of `event_loop` after `select` returned: the socket handler
      when the socket is readable, then the input handler when standard input
      is; a false `proceed` is the `break` out of the loop. */
  method ServeReady(target: seq<char>, input: seq<char>, e: Event)
    returns (proceed: bool, rest: seq<char>, calls: seq<Call>)
    requires e.ready.Ready?
    ensures Pass(proceed, rest, calls) == Serve(target, input, e)
  {
    rest, calls := input, [];
    if e.ready.socket {
      var ok, c := HandleIncoming(e.recv);
      calls := c;
      if !ok {
        return false, rest, calls;
      }
    }
    if e.ready.stdin {
      var ok, r, c := HandleOutgoing(rest, e.readFails, e.send, target);
      rest, calls := r, calls + c;
      if !ok {
        return false, rest, calls;
      }
    }
    proceed := true;
  }

  /** `event_loop`, proved to behave as `RunLoop` with the target path cut to
      the size of `sun_path`. */
  method EventLoop(path: seq<char>, input: seq<char>, events: seq<Event>)
    returns (end: LoopEnd, rest: seq<char>, calls: seq<Call>)
    ensures LoopRun(end, rest, calls) == RunLoop(SunPath(path), input, events)
  {
    var target := SunPath(path);
    end, rest, calls := Waiting, input, [];
    var i := 0;
    while i < |events|
      invariant i <= |events|
      invariant RunLoop(target, input, events) == After(calls, RunLoop(target, rest, events[i..]))
    {
      var e := events[i];
      assert events[i..][0] == e && events[i..][1..] == events[i + 1..];
      if e.ready.SelectError? {
        return Returned(false), rest, calls + [Select(e.ready)];
      }
      ghost var before := calls;
      var proceed, r, c := ServeReady(target, rest, e);
      AfterAfter(before, [Select(e.ready)] + c, RunLoop(target, r, events[i + 1..]));
      AfterAfter(before, [Select(e.ready)] + c, LoopRun(Returned(true), r, []));
      rest, calls := r, calls + [Select(e.ready)] + c;
      assert calls == before + ([Select(e.ready)] + c);
      if !proceed {
        end := Returned(true);
        break;
      }
      i := i + 1;
    }
  }

  /** A handler call whose result is false: a failed `recvfrom`, end of
      input, or a `sendto` that did not report the whole payload sent. */
  predicate HandlerFailed(c: Call)
  {
    (c.Recvfrom? && c.recv.RecvError?) || (c.Fgets? && c.read.Eof?) ||
    (c.Sendto? && c.sent != SendCount(|c.payload|))
  }

  /** A call after which the loop cannot go on. */
  predicate Stops(c: Call)
  {
    c == Select(SelectError) || HandlerFailed(c)
  }

  /** No call in `calls` stops the loop. */
  predicate Unstopped(calls: seq<Call>)
  {
    forall k :: 0 <= k < |calls| ==> !Stops(calls[k])
  }

  function Last(calls: seq<Call>): Call
    requires calls != []
  {
    calls[|calls| - 1]
  }

  /** At most the last call of `calls` stops the loop. */
  predicate StopsOnlyLast(calls: seq<Call>)
  {
    calls == [] || Unstopped(calls[..|calls| - 1])
  }

  lemma UnstoppedAppend(a: seq<Call>, b: seq<Call>)
    ensures Unstopped(a + b) <==> Unstopped(a) && Unstopped(b)
  {
    if Unstopped(a + b) {
      forall k | 0 <= k < |b| ensures !Stops(b[k]) { assert b[k] == (a + b)[|a| + k]; }
      forall k | 0 <= k < |a| ensures !Stops(a[k]) { assert a[k] == (a + b)[k]; }
    }
  }

  lemma StopsOnlyLastAppend(a: seq<Call>, b: seq<Call>)
    requires Unstopped(a) && StopsOnlyLast(b)
    ensures StopsOnlyLast(a + b)
    ensures b != [] ==> Last(a + b) == Last(b)
  {
    if b != [] {
      assert (a + b)[..|a + b| - 1] == a + b[..|b| - 1];
      UnstoppedAppend(a, b[..|b| - 1]);
    } else {
      assert a + b == a;
      assert a == [] || a[..|a| - 1] + [Last(a)] == a;
      if a != [] { UnstoppedAppend(a[..|a| - 1], [Last(a)]); }
    }
  }

  lemma IncomingStops(answer: RecvResult)
    ensures var i := Incoming(answer);
      (i.ok ==> Unstopped(i.calls)) &&
      (!i.ok ==> i.calls == [Recvfrom(MAX_PAYLOAD, RecvError)])
  {
  }

  lemma OutgoingStops(input: seq<char>, readFails: bool, send: SendResult, target: seq<char>)
    ensures var o := Outgoing(input, readFails, send, target);
      o.calls != [] && StopsOnlyLast(o.calls) &&
      (o.ok ==> Unstopped(o.calls)) &&
      (!o.ok ==> HandlerFailed(Last(o.calls)))
  {
    OutgoingResult(input, readFails, send, target);
  }

  lemma ServeStops(target: seq<char>, input: seq<char>, e: Event)
    requires e.ready.Ready?
    ensures var p := Serve(target, input, e);
      StopsOnlyLast(p.calls) &&
      (p.proceed ==> Unstopped(p.calls)) &&
      (!p.proceed ==> p.calls != [] && HandlerFailed(Last(p.calls)))
  {
    var inc := if e.ready.socket then Incoming(e.recv) else Inbound(true, []);
    IncomingStops(e.recv);
    if inc.ok && e.ready.stdin {
      var o := Outgoing(input, e.readFails, e.send, target);
      OutgoingStops(input, e.readFails, e.send, target);
      StopsOnlyLastAppend(inc.calls, o.calls);
      UnstoppedAppend(inc.calls, o.calls);
    }
  }

  /** The loop stops at the first failure and only there: no call before the
      last one stops it; it is still waiting exactly when no call stopped it;
      it returns false exactly when its last call is a failed `select`, and
      true exactly when its last call is a handler call whose result was
      false, whether that was end of input or a transfer error. */
  lemma {:induction false} LoopStopsAtFirstFailure(target: seq<char>, input: seq<char>, events: seq<Event>)
    decreases |events|
    ensures var r := RunLoop(target, input, events);
      StopsOnlyLast(r.calls) &&
      (r.end == Waiting <==> Unstopped(r.calls)) &&
      (r.end == Returned(false) <==> r.calls != [] && Last(r.calls) == Select(SelectError)) &&
      (r.end == Returned(true) <==> r.calls != [] && HandlerFailed(Last(r.calls)))
  {
    if events == [] {
    } else if events[0].ready.SelectError? {
      assert Stops(RunLoop(target, input, events).calls[0]);
    } else {
      var e := events[0];
      var p := Serve(target, input, e);
      ServeStops(target, input, e);
      var head := [Select(e.ready)];
      assert Unstopped(head);
      StopsOnlyLastAppend(head, p.calls);
      UnstoppedAppend(head, p.calls);
      if p.proceed {
        var r := RunLoop(target, p.rest, events[1..]);
        LoopStopsAtFirstFailure(target, p.rest, events[1..]);
        StopsOnlyLastAppend(head + p.calls, r.calls);
        UnstoppedAppend(head + p.calls, r.calls);
        assert RunLoop(target, input, events).calls == head + p.calls + r.calls;
        if r.calls == [] {
          assert head + p.calls + r.calls == head + p.calls;
        }
      } else {
        assert RunLoop(target, input, events).calls == head + p.calls;
        assert Stops(Last(head + p.calls));
      }
    }
  }

  /** Scanning a trace of the loop from a state saying which handlers may
      still run in the current wake-up: after each `select` the socket handler
      may run once if the socket was reported readable, then the input
      handler once if standard input was; once the input handler has run,
      the socket handler cannot run again until the next `select`. */
  predicate InOrder(calls: seq<Call>, socket: bool, stdin: bool)
    decreases |calls|
  {
    calls == [] ||
    match calls[0]
    case Select(r) => InOrder(calls[1..], r.Ready? && r.socket, r.Ready? && r.stdin)
    case Recvfrom(_, _) => socket && InOrder(calls[1..], false, stdin)
    case Fgets(_, _) => stdin && InOrder(calls[1..], false, false)
    case _ => InOrder(calls[1..], socket, stdin)
  }

  lemma {:induction false} InOrderThenSelect(a: seq<Call>, b: seq<Call>, socket: bool, stdin: bool)
    requires InOrder(a, socket, stdin) && InOrder(b, false, false)
    requires b == [] || b[0].Select?
    ensures InOrder(a + b, socket, stdin)
    decreases |a|
  {
    if a == [] {
      assert a + b == b;
      if b != [] {
        assert InOrder(b[1..], b[0].ready.Ready? && b[0].ready.socket, b[0].ready.Ready? && b[0].ready.stdin);
      }
    } else {
      assert (a + b)[0] == a[0] && (a + b)[1..] == a[1..] + b;
      match a[0]
      case Select(r) => InOrderThenSelect(a[1..], b, r.Ready? && r.socket, r.Ready? && r.stdin);
      case Recvfrom(_, _) => InOrderThenSelect(a[1..], b, false, stdin);
      case Fgets(_, _) => InOrderThenSelect(a[1..], b, false, false);
      case _ => InOrderThenSelect(a[1..], b, socket, stdin);
    }
  }

  lemma OutgoingInOrder(input: seq<char>, readFails: bool, send: SendResult, target: seq<char>, socket: bool)
    ensures InOrder(Outgoing(input, readFails, send, target).calls, socket, true)
  {
    var out := Outgoing(input, readFails, send, target).calls;
    OutgoingResult(input, readFails, send, target);
    if |out| == 2 {
      assert out[1..][1..] == [];
    }
  }

  lemma IncomingInOrder(answer: RecvResult, stdin: bool, tail: seq<Call>)
    requires answer.Datagram? && InOrder(tail, false, stdin)
    ensures InOrder(Incoming(answer).calls + tail, true, stdin)
  {
    var all := Incoming(answer).calls + tail;
    assert all[1..][1..][1..] == tail;
  }

  lemma ServeInOrder(target: seq<char>, input: seq<char>, e: Event)
    requires e.ready.Ready?
    ensures InOrder(Serve(target, input, e).calls, e.ready.socket, e.ready.stdin)
  {
    var out := Outgoing(input, e.readFails, e.send, target).calls;
    if e.ready.stdin {
      OutgoingInOrder(input, e.readFails, e.send, target, e.ready.socket);
      OutgoingInOrder(input, e.readFails, e.send, target, false);
    }
    if e.ready.socket && e.recv.Datagram? {
      if e.ready.stdin {
        IncomingInOrder(e.recv, true, out);
      } else {
        IncomingInOrder(e.recv, false, []);
        assert Incoming(e.recv).calls + [] == Incoming(e.recv).calls;
      }
    }
  }

  /** In every wake-up the socket is served before standard input, each at
      most once and only when `select` reported it readable. */
  lemma OrderStep(ready: Readiness, pc: seq<Call>, rc: seq<Call>)
    requires ready.Ready? && InOrder(pc, ready.socket, ready.stdin)
    requires InOrder(rc, false, false) && (rc == [] || rc[0].Select?)
    ensures InOrder([Select(ready)] + pc + rc, false, false)
  {
    InOrderThenSelect(pc, rc, ready.socket, ready.stdin);
    assert ([Select(ready)] + pc + rc)[1..] == pc + rc;
  }

  lemma {:induction false} LoopHandlerOrder(target: seq<char>, input: seq<char>, events: seq<Event>)
    decreases |events|
    ensures InOrder(RunLoop(target, input, events).calls, false, false)
    ensures RunLoop(target, input, events).calls == [] || RunLoop(target, input, events).calls[0].Select?
  {
    if events == [] {
    } else if events[0].ready.SelectError? {
      assert RunLoop(target, input, events).calls[1..] == [];
    } else {
      var e := events[0];
      var p := Serve(target, input, e);
      ServeInOrder(target, input, e);
      var rc := if p.proceed then RunLoop(target, p.rest, events[1..]).calls else [];
      if p.proceed {
        LoopHandlerOrder(target, p.rest, events[1..]);
      }
      OrderStep(e.ready, p.calls, rc);
      RunLoopReady(target, input, events);
    }
  }

  /** Standard input is consumed line by line: the lines `fgets` returned,
      joined, followed by the input still pending, are the input the loop
      started with. */
  lemma {:induction false} LoopConsumesLines(target: seq<char>, input: seq<char>, events: seq<Event>)
    decreases |events|
    ensures var r := RunLoop(target, input, events);
      input == Concat(LinesRead(r.calls)) + r.rest
  {
    if events == [] {
    } else if events[0].ready.SelectError? {
      SelectLaws(SelectError, target);
    } else {
      var e := events[0];
      var p := Serve(target, input, e);
      ServeLaws(target, input, e);
      RunLoopReady(target, input, events);
      if p.proceed {
        var r := RunLoop(target, p.rest, events[1..]);
        LoopConsumesLines(target, p.rest, events[1..]);
        ConsumeStep(e.ready, input, p.calls, p.rest, r.calls, r.rest);
      } else {
        ConsumeStep(e.ready, input, p.calls, p.rest, [], p.rest);
        assert [Select(e.ready)] + p.calls + [] == [Select(e.ready)] + p.calls;
      }
    }
  }

  /** Line accounting across one wake-up followed by the rest of the loop. */
  lemma ConsumeStep(ready: Readiness, input: seq<char>, pc: seq<Call>, mid: seq<char>, rc: seq<Call>, rest: seq<char>)
    requires input == Concat(LinesRead(pc)) + mid
    requires mid == Concat(LinesRead(rc)) + rest
    ensures input == Concat(LinesRead([Select(ready)] + pc + rc)) + rest
  {
    var whole := [Select(ready)] + pc + rc;
    assert whole == [Select(ready)] + (pc + rc);
    ConsLaws(Select(ready), pc + rc);
    LinesReadAppend(pc, rc);
    var lp, lr := LinesRead(pc), LinesRead(rc);
    assert LinesRead(whole) == lp + lr;
    ConcatAppend(lp, lr);
    calc {
      Concat(LinesRead(whole)) + rest;
      (Concat(lp) + Concat(lr)) + rest;
      Concat(lp) + (Concat(lr) + rest);
    }
  }

  /** Every character standard output receives comes from a datagram: the
      output is each datagram received, as stored, followed by a newline. */
  function Echo(calls: seq<Call>): seq<char>
  {
    if calls == [] then []
    else (if calls[0].Recvfrom? && calls[0].recv.Datagram? then calls[0].recv.bytes + "\n" else []) + Echo(calls[1..])
  }

  lemma {:induction false} EchoAppend(a: seq<Call>, b: seq<Call>)
    ensures Echo(a + b) == Echo(a) + Echo(b)
  {
    if a == [] {
      assert a + b == b;
    } else {
      assert (a + b)[0] == a[0] && (a + b)[1..] == a[1..] + b;
      EchoAppend(a[1..], b);
    }
  }

  /** Standard output receives exactly the datagrams the loop received, in
      order, each followed by one newline. */
  lemma {:induction false} LoopEchoes(target: seq<char>, input: seq<char>, events: seq<Event>)
    decreases |events|
    ensures var r := RunLoop(target, input, events);
      Stdout(r.calls) == Echo(r.calls)
  {
    if events == [] {
    } else if events[0].ready.SelectError? {
      SelectLaws(SelectError, target);
    } else {
      var e := events[0];
      var p := Serve(target, input, e);
      ServeLaws(target, input, e);
      var rc := if p.proceed then RunLoop(target, p.rest, events[1..]).calls else [];
      if p.proceed {
        LoopEchoes(target, p.rest, events[1..]);
      }
      var head := [Select(e.ready)];
      SelectLaws(e.ready, target);
      StdoutAppend(head, p.calls);
      EchoAppend(head, p.calls);
      StdoutAppend(head + p.calls, rc);
      EchoAppend(head + p.calls, rc);
      RunLoopReady(target, input, events);
    }
  }

  /** The transfer at position `k` of a trace respects the message buffer and
      the target: `fgets` gets the whole buffer; `recvfrom` asks for at most
      767 characters and stores at most that; `sendto` goes to the target
      with the line the `fgets` just before it returned, cut at its first
      NUL, which is at most 767 characters, holds no NUL and holds a newline
      only as its last character. */
  predicate TransferBounded(calls: seq<Call>, k: nat, target: seq<char>)
    requires k < |calls|
  {
    match calls[k]
    case Fgets(size, _) => size == BUFFER_SIZE
    case Recvfrom(max, recv) => max == MAX_PAYLOAD && (recv.Datagram? ==> |recv.bytes| <= MAX_PAYLOAD)
    case Sendto(payload, address, _) =>
      address == target && k > 0 && calls[k - 1].Fgets? && calls[k - 1].read.Got? &&
      payload == Str(calls[k - 1].read.line) &&
      |payload| <= MAX_PAYLOAD && NUL !in payload &&
      (forall j :: 0 <= j < |payload| - 1 ==> payload[j] != '\n')
    case _ => true
  }

  predicate TransfersBounded(calls: seq<Call>, target: seq<char>)
  {
    forall k :: 0 <= k < |calls| ==> TransferBounded(calls, k, target)
  }

  lemma TransfersBoundedAppend(a: seq<Call>, b: seq<Call>, target: seq<char>)
    requires TransfersBounded(a, target) && TransfersBounded(b, target)
    requires b == [] || !b[0].Sendto?
    ensures TransfersBounded(a + b, target)
  {
    forall k | 0 <= k < |a + b| ensures TransferBounded(a + b, k, target) {
      if k < |a| {
        assert (a + b)[k] == a[k];
        assert k > 0 ==> (a + b)[k - 1] == a[k - 1];
        assert TransferBounded(a, k, target);
      } else {
        assert (a + b)[k] == b[k - |a|];
        assert k > |a| ==> (a + b)[k - 1] == b[k - 1 - |a|];
        assert TransferBounded(b, k - |a|, target);
      }
    }
  }

  /** Every transfer of the loop respects the message buffer and the target
      (see `TransferBounded`). */
  lemma {:induction false} LoopTransfersBounded(target: seq<char>, input: seq<char>, events: seq<Event>)
    decreases |events|
    ensures TransfersBounded(RunLoop(target, input, events).calls, target)
  {
    if events == [] {
    } else if events[0].ready.SelectError? {
      SelectLaws(SelectError, target);
    } else {
      var e := events[0];
      var p := Serve(target, input, e);
      ServeLaws(target, input, e);
      var rc := if p.proceed then RunLoop(target, p.rest, events[1..]).calls else [];
      if p.proceed {
        LoopTransfersBounded(target, p.rest, events[1..]);
        LoopHandlerOrder(target, p.rest, events[1..]);
      }
      var head := [Select(e.ready)];
      SelectLaws(e.ready, target);
      TransfersBoundedAppend(head, p.calls, target);
      TransfersBoundedAppend(head + p.calls, rc, target);
      RunLoopReady(target, input, events);
    }
  }

  /** One step of each trace summary at the head of a trace. */
  lemma ConsLaws(c: Call, t: seq<Call>)
    ensures LinesRead([c] + t) == (if c.Fgets? && c.read.Got? then [c.read.line] else []) + LinesRead(t)
    ensures Stdout([c] + t) == (if c.Write? then c.bytes else []) + Stdout(t)
    ensures Echo([c] + t) == (if c.Recvfrom? && c.recv.Datagram? then c.recv.bytes + "\n" else []) + Echo(t)
  {
    assert ([c] + t)[0] == c && ([c] + t)[1..] == t;
  }

  lemma SelectLaws(ready: Readiness, target: seq<char>)
    ensures var c := [Select(ready)];
      LinesRead(c) == [] && Stdout(c) == [] && Echo(c) == [] && TransfersBounded(c, target)
  {
    var c := [Select(ready)];
    ConsLaws(Select(ready), []);
    assert c == [Select(ready)] + [];
    assert TransferBounded(c, 0, target);
  }

  lemma IncomingLaws(answer: RecvResult, target: seq<char>)
    ensures var c := Incoming(answer).calls;
      c != [] && c[0].Recvfrom? &&
      LinesRead(c) == [] && Stdout(c) == Echo(c) && TransfersBounded(c, target)
  {
    var c := Incoming(answer).calls;
    if answer.Datagram? {
      var got := Clip(answer.bytes, MAX_PAYLOAD);
      var r, w1, w2 := Recvfrom(MAX_PAYLOAD, Datagram(got)), Write(got), Write("\n");
      assert c == [r] + ([w1] + ([w2] + []));
      ConsLaws(w2, []);
      ConsLaws(w1, [w2]);
      ConsLaws(r, [w1, w2]);
      assert [w1] + ([w2] + []) == [w1, w2];
      forall k | 0 <= k < |c| ensures TransferBounded(c, k, target) {
      }
    } else {
      ConsLaws(c[0], []);
      assert c == [c[0]] + [];
      assert TransferBounded(c, 0, target);
    }
  }

  lemma OutgoingLaws(input: seq<char>, readFails: bool, send: SendResult, target: seq<char>)
    ensures var o := Outgoing(input, readFails, send, target);
      o.calls != [] && o.calls[0].Fgets? &&
      input == Concat(LinesRead(o.calls)) + o.rest &&
      Stdout(o.calls) == [] && Echo(o.calls) == [] && TransfersBounded(o.calls, target)
  {
    var o := Outgoing(input, readFails, send, target);
    OutgoingResult(input, readFails, send, target);
    if |o.calls| == 2 {
      var line := o.calls[0].read.line;
      assert o.calls == [o.calls[0]] + ([o.calls[1]] + []);
      ConsLaws(o.calls[1], []);
      ConsLaws(o.calls[0], [o.calls[1]]);
      assert [o.calls[1]] + [] == [o.calls[1]];
      assert Concat([line]) == line by {
        assert [line][1..] == [];
      }
      PayloadShape(input);
      assert TransferBounded(o.calls, 0, target);
      assert TransferBounded(o.calls, 1, target);
    } else {
      assert o.calls == [o.calls[0]] + [];
      ConsLaws(o.calls[0], []);
      assert TransferBounded(o.calls, 0, target);
    }
  }

  /** The calls of one pass: those of the socket handler, then those of the
      input handler when it ran. */
  lemma ServeSplit(target: seq<char>, input: seq<char>, e: Event)
    requires e.ready.Ready?
    ensures var p := Serve(target, input, e);
      var inc := if e.ready.socket then Incoming(e.recv).calls else [];
      var ran := (!e.ready.socket || e.recv.Datagram?) && e.ready.stdin;
      var out := Outgoing(input, e.readFails, e.send, target);
      p.calls == inc + (if ran then out.calls else []) &&
      p.rest == (if ran then out.rest else input)
  {
    assert Incoming(e.recv).ok == e.recv.Datagram?;
  }

  /** What holds of the trace of a pass, from what holds of its two parts. */
  lemma ServeLaws(target: seq<char>, input: seq<char>, e: Event)
    requires e.ready.Ready?
    ensures var p := Serve(target, input, e);
      input == Concat(LinesRead(p.calls)) + p.rest &&
      Stdout(p.calls) == Echo(p.calls) &&
      TransfersBounded(p.calls, target) && (p.calls == [] || !p.calls[0].Sendto?)
  {
    ServeSplit(target, input, e);
    var inc := if e.ready.socket then Incoming(e.recv).calls else [];
    var ran := (!e.ready.socket || e.recv.Datagram?) && e.ready.stdin;
    var o := Outgoing(input, e.readFails, e.send, target);
    IncomingLaws(e.recv, target);
    OutgoingLaws(input, e.readFails, e.send, target);
    assert TransfersBounded([], target);
    assert InboundLaws(inc, target);
    if ran {
      assert OutboundLaws(input, o.calls, o.rest, target);
      PartLaws(inc, o.calls, input, o.rest, target);
    } else {
      assert inc + [] == inc;
      assert OutboundLaws(input, [], input, target);
      PartLaws(inc, [], input, input, target);
    }
  }

  /** What the socket handler's part of a pass keeps: it reads no line,
      writes only what it echoes, and starts with no `sendto`. */
  predicate InboundLaws(c: seq<Call>, target: seq<char>)
  {
    LinesRead(c) == [] && Stdout(c) == Echo(c) && TransfersBounded(c, target) && (c == [] || !c[0].Sendto?)
  }

  /** What the input handler's part of a pass keeps: the lines it read are
      the input it consumed, it writes nothing, and it starts with no `sendto`. */
  predicate OutboundLaws(input: seq<char>, c: seq<Call>, rest: seq<char>, target: seq<char>)
  {
    input == Concat(LinesRead(c)) + rest && Stdout(c) == [] && Echo(c) == [] &&
    TransfersBounded(c, target) && (c == [] || !c[0].Sendto?)
  }

  lemma PartLaws(inc: seq<Call>, out: seq<Call>, input: seq<char>, rest: seq<char>, target: seq<char>)
    requires InboundLaws(inc, target) && OutboundLaws(input, out, rest, target)
    ensures input == Concat(LinesRead(inc + out)) + rest
    ensures Stdout(inc + out) == Echo(inc + out)
    ensures TransfersBounded(inc + out, target) && (inc + out == [] || !(inc + out)[0].Sendto?)
  {
    LinesReadAppend(inc, out);
    StdoutAppend(inc, out);
    EchoAppend(inc, out);
    assert LinesRead(inc) + LinesRead(out) == LinesRead(out);
    assert Stdout(inc) + Stdout(out) == Stdout(inc) && Echo(inc) + Echo(out) == Echo(inc);
    TransfersBoundedAppend(inc, out, target);
    assert inc + out == [] || (inc + out)[0] == (if inc != [] then inc[0] else out[0]);
  }

  /** Calls the relay makes: `select` and the two transfers. */
  predicate RelayCall(c: Call)
  {
    c.Select? || c.Recvfrom? || c.Write? || c.Fgets? || c.Sendto?
  }

  predicate RelayCalls(calls: seq<Call>)
  {
    forall i :: 0 <= i < |calls| ==> RelayCall(calls[i])
  }

  lemma RelayCallsAppend(a: seq<Call>, b: seq<Call>)
    requires RelayCalls(a) && RelayCalls(b)
    ensures RelayCalls(a + b)
  {
    forall i | 0 <= i < |a + b| ensures RelayCall((a + b)[i]) {
      if i < |a| {
        assert (a + b)[i] == a[i];
      } else {
        assert (a + b)[i] == b[i - |a|];
      }
    }
  }

  lemma ServeRelayCalls(target: seq<char>, input: seq<char>, e: Event)
    requires e.ready.Ready?
    ensures RelayCalls(Serve(target, input, e).calls)
  {
    ServeSplit(target, input, e);
    var inc := if e.ready.socket then Incoming(e.recv).calls else [];
    var o := Outgoing(input, e.readFails, e.send, target);
    var ran := (!e.ready.socket || e.recv.Datagram?) && e.ready.stdin;
    assert RelayCalls(inc);
    OutgoingResult(input, e.readFails, e.send, target);
    assert RelayCalls(o.calls);
    if ran {
      RelayCallsAppend(inc, o.calls);
    } else {
      assert inc + [] == inc;
    }
  }

  /** The loop touches no file: it only waits, receives, writes, reads and
      sends. */
  lemma {:induction false} LoopRelayCalls(target: seq<char>, input: seq<char>, events: seq<Event>)
    decreases |events|
    ensures RelayCalls(RunLoop(target, input, events).calls)
  {
    if events == [] {
    } else if events[0].ready.SelectError? {
      assert RunLoop(target, input, events).calls == [Select(SelectError)];
    } else {
      var e := events[0];
      var p := Serve(target, input, e);
      ServeRelayCalls(target, input, e);
      RunLoopReady(target, input, events);
      var rc := if p.proceed then RunLoop(target, p.rest, events[1..]).calls else [];
      if p.proceed {
        LoopRelayCalls(target, p.rest, events[1..]);
      }
      assert RelayCalls([Select(e.ready)]);
      RelayCallsAppend([Select(e.ready)], p.calls);
      RelayCallsAppend([Select(e.ready)] + p.calls, rc);
    }
  }
}
