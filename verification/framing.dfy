// Length-prefixed frames: what send_message prints, what the incremental parser of
// do_read makes of one buffer, and why its answer does not depend on how the byte
// stream was cut into reads.

module Framing {
  import opened Words

  type byte = x: int | 0 <= x < 256
  // msglen is an int
  type Body = s: seq<byte> | |s| < 0x8000_0000 witness []
  datatype Msg = Msg(id: int32, body: Body)

  const HEAD_LEN: nat := 8
  const BODY_LIMIT: nat := 65535 - HEAD_LEN
  // the largest block of the pool
  const MAX_BUFFER: nat := 8388608

  // ---------- Header ----------

  // The n low bytes of a word, least significant first.
  function Bytes(u: nat, n: nat): (s: seq<byte>)
    ensures |s| == n
  {
    if n == 0 then [] else [u % 256] + Bytes(u / 256, n - 1)
  }

  function Word(s: seq<byte>, n: nat): (u: nat)
    requires n <= |s|
    ensures u < Power(n)
  {
    if n == 0 then 0 else var low: int := s[0]; low + 256 * Word(s[1..], n - 1)
  }

  function Power(n: nat): nat { if n == 0 then 1 else 256 * Power(n - 1) }

  function EncodeInt(v: int32): (s: seq<byte>)
    ensures |s| == 4
  {
    Bytes(AsUint32(v), 4)
  }

  function DecodeInt(s: seq<byte>): int32
    requires |s| >= 4
  {
    var u := Word(s, 4);
    assert Power(4) == 0x1_0000_0000;
    AsInt32(u)
  }

  lemma {:induction false} WordOfBytes(u: nat, n: nat, rest: seq<byte>)
    requires u < Power(n)
    ensures Word(Bytes(u, n) + rest, n) == u
  {
    if n > 0 {
      assert (Bytes(u, n) + rest)[1..] == Bytes(u / 256, n - 1) + rest;
      WordOfBytes(u / 256, n - 1, rest);
    }
  }

  lemma {:induction false} BytesOfWord(s: seq<byte>, n: nat)
    requires n <= |s|
    ensures Bytes(Word(s, n), n) == s[..n]
  {
    if n > 0 {
      BytesOfWord(s[1..], n - 1);
      Digit(Word(s, n), Word(s[1..], n - 1), s[0]);
      assert s[..n] == [s[0]] + s[1..][..n - 1];
    }
  }

  lemma Digit(x: int, q: int, r: byte)
    requires x == 256 * q + r
    ensures x % 256 == r && x / 256 == q
  {
  }

  lemma {:induction false} WordAppend(s: seq<byte>, t: seq<byte>, n: nat)
    requires n <= |s|
    ensures Word(s + t, n) == Word(s, n)
  {
    if n > 0 {
      assert (s + t)[1..] == s[1..] + t;
      WordAppend(s[1..], t, n - 1);
    }
  }

  lemma IntRoundTrip(v: int32, rest: seq<byte>)
    ensures DecodeInt(EncodeInt(v) + rest) == v
  {
    assert Power(4) == 0x1_0000_0000;
    WordOfBytes(AsUint32(v), 4, rest);
  }

  lemma EncodeDecoded(s: seq<byte>)
    requires |s| >= 4
    ensures EncodeInt(DecodeInt(s)) == s[..4]
  {
    BytesOfWord(s, 4);
  }

  function Header(m: Msg): (s: seq<byte>)
    ensures |s| == HEAD_LEN
  {
    EncodeInt(m.id) + EncodeInt(|m.body|)
  }

  lemma HeaderRoundTrip(m: Msg, t: seq<byte>)
    ensures DecodeInt(Header(m) + t) == m.id
    ensures DecodeInt((Header(m) + t)[4..]) == |m.body|
  {
    hide EncodeInt, DecodeInt;
    IntRoundTrip(m.id, EncodeInt(|m.body|) + t);
    IntRoundTrip(|m.body|, t);
    assert Header(m) + t == EncodeInt(m.id) + (EncodeInt(|m.body|) + t);
    assert (Header(m) + t)[4..] == EncodeInt(|m.body|) + t;
  }

  function Frame(m: Msg): seq<byte> { Header(m) + m.body }

  function Frames(ms: seq<Msg>): seq<byte> {
    if ms == [] then [] else Frame(ms[0]) + Frames(ms[1..])
  }

  lemma {:induction false} FramesAppend(ms: seq<Msg>, m: Msg)
    ensures Frames(ms + [m]) == Frames(ms) + Frame(m)
  {
    hide Frame;
    if ms == [] {
      assert Frames([m]) == Frame(m) + Frames([]);
    } else {
      assert (ms + [m])[1..] == ms[1..] + [m];
      FramesAppend(ms[1..], m);
    }
  }

  // ---------- Parsing ----------

  // How a connection stands: still open with unparsed bytes, closed, or stopped by the
  // non-null assertion of ReactorBuf::pop.
  datatype End = Open(residue: seq<byte>) | Closed | Aborted
  datatype Outcome = Outcome(msgs: seq<Msg>, end: End)

  function Prepend(ms: seq<Msg>, o: Outcome): Outcome { Outcome(ms + o.msgs, o.end) }

  lemma PrependTwice(a: seq<Msg>, b: seq<Msg>, o: Outcome)
    ensures Prepend(a + b, o) == Prepend(a, Prepend(b, o))
  {
  }

  predicate BadLength(n: int) { n > BODY_LIMIT || n < 0 }

  // The message at the front of a buffer that holds all of it.
  predicate HasFrame(s: seq<byte>) {
    |s| >= HEAD_LEN && !BadLength(DecodeInt(s[4..])) && |s| >= HEAD_LEN + DecodeInt(s[4..])
  }

  function FrontLength(s: seq<byte>): (n: nat)
    requires HasFrame(s)
    ensures HEAD_LEN <= n <= |s|
  {
    HEAD_LEN + DecodeInt(s[4..])
  }

  function FrontMsg(s: seq<byte>): Msg
    requires HasFrame(s)
  {
    Msg(DecodeInt(s), s[HEAD_LEN..FrontLength(s)])
  }

  // The loop of do_read on one buffer. A header that uses up the buffer leaves none for
  // the second pop, which then aborts, after the callback has run.
  function Drain(s: seq<byte>): Outcome
    decreases |s|
  {
    if |s| < HEAD_LEN then Outcome([], Open(s))
    else if BadLength(DecodeInt(s[4..])) then Outcome([], Closed)
    else if !HasFrame(s) then Outcome([], Open(s))
    else if |s| == HEAD_LEN then Outcome([FrontMsg(s)], Aborted)
    else Prepend([FrontMsg(s)], Drain(s[FrontLength(s)..]))
  }

  // One round of the loop.
  lemma DrainStep(s: seq<byte>)
    ensures |s| < HEAD_LEN ==> Drain(s) == Outcome([], Open(s))
    ensures |s| >= HEAD_LEN ==>
              var n := DecodeInt(s[4..]);
              if BadLength(n) then Drain(s) == Outcome([], Closed)
              else if |s| < HEAD_LEN + n then Drain(s) == Outcome([], Open(s))
              else HasFrame(s) && FrontLength(s) == HEAD_LEN + n && FrontMsg(s).id == DecodeInt(s)
                   && (|s| == HEAD_LEN ==> Drain(s) == Outcome([FrontMsg(s)], Aborted))
                   && (|s| != HEAD_LEN ==> Drain(s) == Prepend([FrontMsg(s)], Drain(s[HEAD_LEN + n..])))
  {
  }

  lemma HeadOf(s: seq<byte>)
    requires |s| >= HEAD_LEN
    ensures DecodeInt(s[..HEAD_LEN]) == DecodeInt(s) && DecodeInt(s[..HEAD_LEN][4..]) == DecodeInt(s[4..])
  {
    assert s == s[..HEAD_LEN] + s[HEAD_LEN..];
    LengthAppend(s[..HEAD_LEN], s[HEAD_LEN..]);
  }

  // The protocol itself: what a whole byte stream means, with no buffer involved.
  function Parse(s: seq<byte>): (o: Outcome)
    ensures o.end != Aborted
    decreases |s|
  {
    if HasFrame(s) then Prepend([FrontMsg(s)], Parse(s[FrontLength(s)..]))
    else if |s| >= HEAD_LEN && BadLength(DecodeInt(s[4..])) then Outcome([], Closed)
    else Outcome([], Open(s))
  }

  // The stream ends right behind a message without a body.
  predicate EndsWithEmptyBody(s: seq<byte>) {
    var o := Parse(s);
    o.end == Open([]) && o.msgs != [] && o.msgs[|o.msgs| - 1].body == []
  }

  // One do_read: the bytes that were left over and the chunk that was read. Reading
  // nothing means the peer has closed; more than the largest block cannot be buffered.
  function Feed(residue: seq<byte>, chunk: seq<byte>): Outcome {
    if chunk == [] || |residue| + |chunk| > MAX_BUFFER then Outcome([], Closed)
    else Drain(residue + chunk)
  }

  // A whole connection.
  function Feeds(residue: seq<byte>, chunks: seq<seq<byte>>): Outcome
    decreases |chunks|
  {
    if chunks == [] then Outcome([], Open(residue))
    else
      var o := Feed(residue, chunks[0]);
      if o.end.Open? then Prepend(o.msgs, Feeds(o.end.residue, chunks[1..])) else o
  }

  function Concat(chunks: seq<seq<byte>>): seq<byte> {
    if chunks == [] then [] else chunks[0] + Concat(chunks[1..])
  }

  // A read that delivers something and, behind what the bytes before leave unparsed,
  // does not outgrow the largest block.
  predicate Taken(before: seq<byte>, chunk: seq<byte>) {
    chunk != [] && (Parse(before).end.Open? ==> |Parse(before).end.residue| + |chunk| <= MAX_BUFFER)
  }

  // How many reads come before the first that closes the connection by itself.
  function Kept(before: seq<byte>, chunks: seq<seq<byte>>): (n: nat)
    ensures n <= |chunks|
    decreases |chunks|
  {
    if chunks == [] || !Taken(before, chunks[0]) then 0 else 1 + Kept(before + chunks[0], chunks[1..])
  }

  // ---------- Properties ----------

  // What stays unparsed is an incomplete frame, below 65535 bytes, and parsing it again
  // finds nothing.
  lemma {:induction false} ResidueIsShort(s: seq<byte>)
    ensures Parse(s).end.Open? ==>
              |Parse(s).end.residue| < HEAD_LEN + BODY_LIMIT
              && Parse(Parse(s).end.residue) == Outcome([], Open(Parse(s).end.residue))
    decreases |s|
  {
    if HasFrame(s) {
      ResidueIsShort(s[FrontLength(s)..]);
    }
  }

  lemma LengthAppend(s: seq<byte>, t: seq<byte>)
    requires |s| >= HEAD_LEN
    ensures DecodeInt(s + t) == DecodeInt(s)
    ensures DecodeInt((s + t)[4..]) == DecodeInt(s[4..])
  {
    WordAppend(s, t, 4);
    WordAppend(s[4..], t, 4);
    assert (s + t)[4..] == s[4..] + t;
  }

  lemma FrontAppend(s: seq<byte>, t: seq<byte>)
    requires HasFrame(s)
    ensures HasFrame(s + t) && FrontLength(s + t) == FrontLength(s)
    ensures FrontMsg(s + t) == FrontMsg(s)
    ensures (s + t)[FrontLength(s)..] == s[FrontLength(s)..] + t
  {
    LengthAppend(s, t);
    assert (s + t)[HEAD_LEN..FrontLength(s)] == s[HEAD_LEN..FrontLength(s)];
  }

  // Parsing is a left-to-right automaton: more input continues from the residue, and
  // nothing reopens a closed connection.
  lemma {:induction false} ParseAppend(s: seq<byte>, t: seq<byte>)
    ensures Parse(s).end.Open? ==>
              Parse(s + t) == Prepend(Parse(s).msgs, Parse(Parse(s).end.residue + t))
    ensures !Parse(s).end.Open? ==> Parse(s + t) == Parse(s)
    decreases |s|
  {
    if HasFrame(s) {
      FrontAppend(s, t);
      var rest := s[FrontLength(s)..];
      ParseAppend(rest, t);
      if Parse(rest).end.Open? {
        PrependTwice([FrontMsg(s)], Parse(rest).msgs, Parse(Parse(rest).end.residue + t));
      }
    } else if |s| >= HEAD_LEN && BadLength(DecodeInt(s[4..])) {
      LengthAppend(s, t);
    }
  }

  lemma PrintFront(s: seq<byte>)
    requires HasFrame(s)
    ensures Frame(FrontMsg(s)) == s[..FrontLength(s)]
  {
    hide DecodeInt, EncodeInt;
    EncodeDecoded(s);
    EncodeDecoded(s[4..]);
    var m := FrontMsg(s);
    assert Header(m) == s[..4] + s[4..][..4];
    assert Frame(m) == s[..4] + s[4..HEAD_LEN] + s[HEAD_LEN..FrontLength(s)];
  }

  // Printing what was parsed gives the stream back: no byte is skipped or read twice.
  lemma {:induction false} PrintParsed(s: seq<byte>)
    ensures Parse(s).end.Open? ==> s == Frames(Parse(s).msgs) + Parse(s).end.residue
    decreases |s|
  {
    hide DecodeInt, Frame;
    if HasFrame(s) {
      var rest := s[FrontLength(s)..];
      PrintParsed(rest);
      PrintFront(s);
      if Parse(rest).end.Open? {
        var ms := Parse(s).msgs;
        assert ms[1..] == Parse(rest).msgs;
        assert s == s[..FrontLength(s)] + rest;
        assert Frames(ms) == Frame(ms[0]) + Frames(ms[1..]);
      }
    }
  }

  lemma NothingParsed(s: seq<byte>)
    requires s != [] && Parse(s).end == Open([])
    ensures Parse(s).msgs != []
  {
  }

  // On one buffer the loop agrees with the protocol but for the abort.
  lemma {:induction false} DrainIsParse(s: seq<byte>)
    ensures Drain(s) == if EndsWithEmptyBody(s) then Outcome(Parse(s).msgs, Aborted) else Parse(s)
    decreases |s|
  {
    if HasFrame(s) {
      var t := s[FrontLength(s)..];
      if t == [] {
        assert Parse(t) == Outcome([], Open([]));
        assert Parse(s).msgs == [FrontMsg(s)];
      } else {
        DrainIsParse(t);
        assert Parse(s).msgs == [FrontMsg(s)] + Parse(t).msgs;
        if Parse(t).msgs == [] && Parse(t).end == Open([]) {
          assert false;
        }
      }
    }
  }

  // One of the reads that follow ends right behind a message without a body.
  predicate CutBehindEmptyBody(before: seq<byte>, chunks: seq<seq<byte>>)
    decreases |chunks|
  {
    chunks != []
    && (EndsWithEmptyBody(before + chunks[0]) || CutBehindEmptyBody(before + chunks[0], chunks[1..]))
  }

  lemma {:induction false} CutPosition(before: seq<byte>, chunks: seq<seq<byte>>) returns (j: nat)
    requires CutBehindEmptyBody(before, chunks)
    ensures 1 <= j <= |chunks| && EndsWithEmptyBody(before + Concat(chunks[..j]))
    decreases |chunks|
  {
    hide EndsWithEmptyBody;
    if EndsWithEmptyBody(before + chunks[0]) {
      assert before + Concat(chunks[..1]) == before + chunks[0];
      return 1;
    }
    j := CutPosition(before + chunks[0], chunks[1..]);
    assert chunks[..j + 1][1..] == chunks[1..][..j];
    assert before + chunks[0] + Concat(chunks[1..][..j]) == before + Concat(chunks[..j + 1]);
    j := j + 1;
  }

  lemma {:induction false} CutAt(before: seq<byte>, chunks: seq<seq<byte>>, j: nat)
    requires 1 <= j <= |chunks| && EndsWithEmptyBody(before + Concat(chunks[..j]))
    ensures CutBehindEmptyBody(before, chunks)
    decreases |chunks|
  {
    hide EndsWithEmptyBody;
    assert chunks[..j][1..] == chunks[1..][..j - 1];
    assert before + chunks[0] + Concat(chunks[1..][..j - 1]) == before + Concat(chunks[..j]);
    if j == 1 {
      assert before + chunks[0] == before + chunks[0] + Concat(chunks[1..][..0]);
    } else {
      CutAt(before + chunks[0], chunks[1..], j - 1);
    }
  }

  // What the reads up to the first bad one come to.
  function Meaning(before: seq<byte>, chunks: seq<seq<byte>>): Outcome {
    var n := Kept(before, chunks);
    var o := Parse(before + Concat(chunks[..n]));
    if n < |chunks| then Outcome(o.msgs, Closed) else o
  }

  lemma {:induction false} MeaningStep(before: seq<byte>, chunks: seq<seq<byte>>)
    ensures chunks == [] ==> Meaning(before, chunks) == Parse(before)
    ensures chunks != [] && !Taken(before, chunks[0]) ==>
              Kept(before, chunks) == 0 && Meaning(before, chunks) == Outcome(Parse(before).msgs, Closed)
    ensures chunks != [] && Taken(before, chunks[0]) ==>
              Kept(before, chunks) == 1 + Kept(before + chunks[0], chunks[1..])
              && Meaning(before, chunks) == Meaning(before + chunks[0], chunks[1..])
  {
    hide Parse, Taken;
    assert before + Concat(chunks[..0]) == before;
    if chunks != [] && Taken(before, chunks[0]) {
      var n := Kept(before, chunks);
      assert chunks[..n][1..] == chunks[1..][..n - 1];
      assert before + Concat(chunks[..n]) == before + chunks[0] + Concat(chunks[1..][..n - 1]);
    }
  }

  // One of the reads before the first bad one ends behind a message without a body.
  predicate Cut(before: seq<byte>, chunks: seq<seq<byte>>) {
    CutBehindEmptyBody(before, chunks[..Kept(before, chunks)])
  }

  lemma CutStep(before: seq<byte>, chunks: seq<seq<byte>>)
    ensures chunks == [] || !Taken(before, chunks[0]) ==> !Cut(before, chunks)
    ensures chunks != [] && Taken(before, chunks[0]) ==>
              (Cut(before, chunks) <==> EndsWithEmptyBody(before + chunks[0]) || Cut(before + chunks[0], chunks[1..]))
  {
    hide Taken, EndsWithEmptyBody;
    if chunks != [] && Taken(before, chunks[0]) {
      var n := Kept(before, chunks);
      assert chunks[..n][1..] == chunks[1..][..n - 1];
    }
  }

  // One read at a point where the connection is open.
  lemma FeedStep(before: seq<byte>, chunk: seq<byte>)
    requires Parse(before).end.Open?
    ensures var o, next := Feed(Parse(before).end.residue, chunk), before + chunk;
            if !Taken(before, chunk) then o == Outcome([], Closed)
            else if EndsWithEmptyBody(next) then
              o.end == Aborted
            else o.end == Parse(next).end && Parse(before).msgs + o.msgs == Parse(next).msgs
  {
    hide Parse, Drain;
    ResidueIsShort(before);
    var r := Parse(before).end.residue;
    if Taken(before, chunk) {
      ParseAppend(before, chunk);
      if Parse(r + chunk).end == Open([]) {
        NothingParsed(r + chunk);
      }
      DrainIsParse(r + chunk);
    }
  }

  // From any open point of a stream the reads dispatch what they mean, but for the abort.
  lemma {:induction false} FeedsFrom(before: seq<byte>, chunks: seq<seq<byte>>)
    requires Parse(before).end.Open?
    ensures var o := Feeds(Parse(before).end.residue, chunks);
            && (o.end == Aborted <==> Cut(before, chunks))
            && (o.end != Aborted ==> Prepend(Parse(before).msgs, o) == Meaning(before, chunks))
    decreases |chunks|
  {
    hide Parse, Feed, Taken, Kept, Meaning, Cut, EndsWithEmptyBody;
    MeaningStep(before, chunks);
    CutStep(before, chunks);
    if chunks != [] {
      FeedStep(before, chunks[0]);
      var next, o := before + chunks[0], Feed(Parse(before).end.residue, chunks[0]);
      if Taken(before, chunks[0]) && !EndsWithEmptyBody(next) {
        if o.end.Open? {
          FeedsFrom(next, chunks[1..]);
          PrependTwice(Parse(before).msgs, o.msgs, Feeds(o.end.residue, chunks[1..]));
        } else {
          ClosedStays(next, chunks[1..]);
        }
      }
    }
  }

  lemma {:induction false} ClosedStays(before: seq<byte>, chunks: seq<seq<byte>>)
    requires !Parse(before).end.Open?
    ensures !Cut(before, chunks) && Meaning(before, chunks) == Parse(before)
    decreases |chunks|
  {
    MeaningStep(before, chunks);
    CutStep(before, chunks);
    if chunks != [] {
      ParseAppend(before, chunks[0]);
      hide Parse, Taken, Kept, Meaning, Cut;
      if Taken(before, chunks[0]) {
        ClosedStays(before + chunks[0], chunks[1..]);
      }
    }
  }

  // MAIN: the dispatched messages and the final state depend on the byte stream alone,
  // not on its division into reads. A read of nothing, or of more than there is room for,
  // closes the connection where the stream stands. The one exception aborts the process,
  // and happens exactly when a read ends right behind a message without a body.
  lemma ChunkIndependence(chunks: seq<seq<byte>>)
    ensures Feeds([], chunks).end == Aborted <==> Cut([], chunks)
    ensures !Cut([], chunks) ==>
              var n := Kept([], chunks);
              var o := Parse(Concat(chunks[..n]));
              Feeds([], chunks) == if n < |chunks| then Outcome(o.msgs, Closed) else o
  {
    assert Parse([]) == Outcome([], Open([]));
    hide Feeds, Cut, Parse, Kept;
    FeedsFrom([], chunks);
    assert [] + Concat(chunks[..Kept([], chunks)]) == Concat(chunks[..Kept([], chunks)]);
    assert Prepend([], Feeds([], chunks)) == Feeds([], chunks);
  }

  // Reads that leave room for one more frame are all taken.
  lemma {:induction false} SmallReadsAreTaken(before: seq<byte>, chunks: seq<seq<byte>>)
    requires forall c :: c in chunks ==> c != [] && |c| + HEAD_LEN + BODY_LIMIT <= MAX_BUFFER
    ensures Kept(before, chunks) == |chunks|
    decreases |chunks|
  {
    if chunks != [] {
      assert chunks[0] in chunks;
      ResidueIsShort(before);
      hide Parse;
      SmallReadsAreTaken(before + chunks[0], chunks[1..]);
    }
  }

  predicate Fits(m: Msg) { |m.body| <= BODY_LIMIT }

  // The parser takes back one printed message; a body over the limit closes instead.
  lemma ParseFrame(m: Msg, t: seq<byte>)
    ensures Parse(Frame(m) + t) == if Fits(m) then Prepend([m], Parse(t)) else Outcome([], Closed)
  {
    hide DecodeInt, Header;
    var s := Frame(m) + t;
    assert s == Header(m) + (m.body + t);
    HeaderRoundTrip(m, m.body + t);
    if Fits(m) {
      assert FrontMsg(s) == m;
      assert s[FrontLength(s)..] == t;
    }
  }

  // How many messages come before the first one whose body is too long.
  function Fitting(ms: seq<Msg>): (n: nat)
    ensures n <= |ms|
    ensures forall i :: 0 <= i < n ==> Fits(ms[i])
    ensures n < |ms| ==> ms[n] in ms && !Fits(ms[n])
  {
    if ms == [] || !Fits(ms[0]) then 0 else 1 + Fitting(ms[1..])
  }

  lemma ParseNothing()
    ensures Parse([]) == Outcome([], Open([]))
  {
  }

  // MAIN: a printed stream parses to its messages up to the first that is too long,
  // which closes the connection.
  lemma {:induction false} ParseFrames(ms: seq<Msg>)
    ensures Parse(Frames(ms)) == Outcome(ms[..Fitting(ms)], if Fitting(ms) == |ms| then Open([]) else Closed)
  {
    hide Parse, Frame, Fits;
    if ms == [] {
      ParseNothing();
    } else {
      var rest := ms[1..];
      ParseFrame(ms[0], Frames(rest));
      ParseFrames(rest);
      if Fits(ms[0]) {
        assert ms[..Fitting(ms)] == [ms[0]] + rest[..Fitting(rest)];
      }
    }
  }

  // So printing then parsing is the identity exactly when every body is within the limit.
  lemma RoundTrip(ms: seq<Msg>)
    ensures Parse(Frames(ms)) == Outcome(ms, Open([])) <==> forall m :: m in ms ==> Fits(m)
  {
    hide Parse, Frames;
    ParseFrames(ms);
    assert ms[..|ms|] == ms;
  }

  // A parser standing between messages of a printed stream has read the print of the
  // first few.
  lemma BetweenMessages(ms: seq<Msg>, s: seq<byte>)
    requires forall m :: m in ms ==> Fits(m)
    requires s <= Frames(ms) && Parse(s).end == Open([])
    ensures Parse(s).msgs <= ms && s == Frames(Parse(s).msgs)
  {
    hide Parse, Frames, Fits;
    var p, u := Parse(s).msgs, Frames(ms)[|s|..];
    assert Frames(ms) == s + u;
    RoundTrip(ms);
    ParseAppend(s, u);
    PrintParsed(s);
    assert Frames(p) + [] == Frames(p);
  }

  lemma {:induction false} ConcatPrefix(chunks: seq<seq<byte>>, j: nat)
    requires j <= |chunks|
    ensures Concat(chunks[..j]) <= Concat(chunks)
  {
    if j > 0 {
      assert chunks[..j][1..] == chunks[1..][..j - 1];
      ConcatPrefix(chunks[1..], j - 1);
    }
  }

  // The stream so far is the print of the first k messages, and the k-th has no body.
  predicate BehindEmptyBody(ms: seq<Msg>, s: seq<byte>, k: nat) {
    1 <= k <= |ms| && ms[k - 1].body == [] && s == Frames(ms[..k])
  }

  lemma EmptyBodyPosition(ms: seq<Msg>, s: seq<byte>, k: nat)
    requires forall m :: m in ms ==> Fits(m)
    requires BehindEmptyBody(ms, s, k)
    ensures EndsWithEmptyBody(s)
  {
    hide Parse, Frames, Fits;
    RoundTrip(ms[..k]);
  }

  lemma CutBehindMessage(ms: seq<Msg>, chunks: seq<seq<byte>>) returns (j: nat, k: nat)
    requires forall m :: m in ms ==> Fits(m)
    requires Concat(chunks) == Frames(ms) && CutBehindEmptyBody([], chunks)
    ensures 1 <= j <= |chunks| && BehindEmptyBody(ms, Concat(chunks[..j]), k)
    ensures 1 <= k <= |ms| && ms[k - 1].body == []
  {
    hide Parse, Frames, Concat, CutBehindEmptyBody, Fits;
    j := CutPosition([], chunks);
    var s := Concat(chunks[..j]);
    assert [] + s == s;
    ConcatPrefix(chunks, j);
    BetweenMessages(ms, s);
    k := |Parse(s).msgs|;
    assert Parse(s).msgs == ms[..k] && ms[k - 1] == Parse(s).msgs[k - 1];
  }

  // MAIN: messages printed by send_message and read back in any chunks are dispatched in
  // order and each once, exactly when no read is bad by itself and none ends right behind
  // a message without a body.
  lemma EndToEnd(ms: seq<Msg>, chunks: seq<seq<byte>>)
    requires forall m :: m in ms ==> Fits(m)
    requires Concat(chunks) == Frames(ms)
    ensures Feeds([], chunks) == Outcome(ms, Open([])) <==>
            Kept([], chunks) == |chunks|
            && forall j, k :: 1 <= j <= |chunks| ==> !BehindEmptyBody(ms, Concat(chunks[..j]), k)
  {
    hide *;
    ChunkIndependence(chunks);
    RoundTrip(ms);
    WholeCut(chunks);
    if CutBehindEmptyBody([], chunks) {
      var j, k := CutBehindMessage(ms, chunks);
      assert BehindEmptyBody(ms, Concat(chunks[..j]), k);
    }
    forall j, k | 1 <= j <= |chunks| && BehindEmptyBody(ms, Concat(chunks[..j]), k)
      ensures CutBehindEmptyBody([], chunks)
    {
      assert [] + Concat(chunks[..j]) == Concat(chunks[..j]);
      EmptyBodyPosition(ms, Concat(chunks[..j]), k);
      CutAt([], chunks, j);
    }
  }

  lemma WholeCut(chunks: seq<seq<byte>>)
    ensures Kept([], chunks) == |chunks| ==>
              (Cut([], chunks) <==> CutBehindEmptyBody([], chunks)) && Concat(chunks[..|chunks|]) == Concat(chunks)
  {
    hide Kept, CutBehindEmptyBody, Concat;
    assert chunks[..|chunks|] == chunks;
  }

  // So messages that all have a body arrive exactly when no read is bad by itself.
  lemma BodiesArrive(ms: seq<Msg>, chunks: seq<seq<byte>>)
    requires forall m :: m in ms ==> 0 < |m.body| <= BODY_LIMIT
    requires Concat(chunks) == Frames(ms)
    ensures Feeds([], chunks) == Outcome(ms, Open([])) <==> Kept([], chunks) == |chunks|
  {
    hide Feeds, Frames, Concat, Kept;
    EndToEnd(ms, chunks);
  }
}
