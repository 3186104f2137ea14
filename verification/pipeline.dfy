// Whole runs of one connection's output side, and what the other end makes of the bytes.

module Pipelines {
  import opened Framing
  import opened ReactorBufs
  import opened TcpConns

  datatype Op = Send(m: Msg) | Write(kernel: seq<Written>)

  // The messages taken on, the bytes on the wire, the bytes held, and whether the
  // connection is still fit for use.
  datatype Pipe = Pipe(sent: seq<Msg>, wire: seq<byte>, held: seq<byte>, fit: bool)

  function Step(p: Pipe, op: Op): Pipe {
    if !p.fit then p
    else match op
      case Send(m) =>
        var s := SendTo(p.held, m);
        Pipe(if s.ret == 0 then p.sent + [m] else p.sent, p.wire, s.held, s.intact)
      case Write(kernel) =>
        var d := DrainTo(kernel, |p.held|);
        Pipe(p.sent, p.wire + p.held[..d.count], p.held[d.count..], !d.failed)
  }

  function Run(ops: seq<Op>): Pipe {
    if ops == [] then Pipe([], [], [], true) else Step(Run(ops[..|ops| - 1]), ops[|ops| - 1])
  }

  // MAIN: whatever is sent and however little each write takes, the bytes on the wire
  // followed by the bytes held are the frames of the messages taken on; and what is on
  // the wire stays a prefix of them even once the connection is unfit.
  lemma {:induction false} Conservation(ops: seq<Op>)
    ensures var p := Run(ops);
            p.wire <= Frames(p.sent) && (p.fit ==> p.wire + p.held == Frames(p.sent))
  {
    hide SendTo, DrainTo, Frames, Frame;
    if ops == [] {
      EmptyRun();
    } else {
      var p, op := Run(ops[..|ops| - 1]), ops[|ops| - 1];
      Conservation(ops[..|ops| - 1]);
      if p.fit {
        match op
        case Send(m) =>
          SendIsAtomic(p.held, m);
          FramesAppend(p.sent, m);
          assert p.wire + (p.held + Frame(m)) == p.wire + p.held + Frame(m);
        case Write(kernel) =>
          var n := DrainTo(kernel, |p.held|).count;
          assert p.wire + p.held == p.wire + p.held[..n] + p.held[n..];
      }
    }
  }

  lemma EmptyRun()
    ensures Run([]) == Pipe([], [], [], true) && Frames([]) == []
  {
  }

  // MAIN: at any moment of any run, what the peer has parsed from the bytes on the wire
  // is a prefix of the messages taken on; and once nothing is held it is all of them, up
  // to the first that is over the limit of the parser, which closes the connection.
  lemma Delivery(ops: seq<Op>)
    ensures Parse(Run(ops).wire).msgs <= Run(ops).sent
    ensures Run(ops).fit && Run(ops).held == [] ==>
              var sent := Run(ops).sent;
              Parse(Run(ops).wire)
              == Outcome(sent[..Fitting(sent)], if Fitting(sent) == |sent| then Open([]) else Closed)
  {
    hide Parse, Frames, Run, Fitting;
    var p := Run(ops);
    Conservation(ops);
    ParseFrames(p.sent);
    var rest := Frames(p.sent)[|p.wire|..];
    assert Frames(p.sent) == p.wire + rest;
    ParseAppend(p.wire, rest);
    assert p.wire + [] == p.wire;
    assert p.sent[..Fitting(p.sent)] <= p.sent;
  }
}
