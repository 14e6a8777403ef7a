/** Stream safety of the TCP of kernel/net.c: whatever the network loses, repeats or reorders,
    the bytes a socket has accepted are a prefix of the bytes its peer's writer handed over,
    and the receive side closes only at the end of that stream. */
module TcpStream {
  import opened Tcp

  /** One direction of a connection in plain stream positions: everything the writer handed
      over, what is acknowledged, sent and received. Position `|S|` is the FIN. */
  datatype Dir = Dir(base: nat, S: Bytes, una: nat, nxt: nat, rcv: nat)

  ghost predicate FinSent(d: Dir) { d.nxt == |d.S| + 1 }

  ghost predicate FlightOk(d: Dir, tx: InFlight) {
    tx.Sent? && var n := |tx.data| + if tx.fin then 1 else 0;
    && 0 < n <= CHUNK_MAX && n <= d.nxt && d.nxt - n <= d.una && tx.num == Wire(d.base, d.nxt - n)
    && if tx.fin then tx.data == [] && FinSent(d) else d.nxt == |d.S| && tx.data == d.S[d.nxt - n..]
  }

  /** What a connection state says about the two FINs: whether ours was sent and acknowledged,
      and whether the peer's has arrived. */
  ghost predicate StateOk(d: Dir, x: Sock) {
    var acked := d.una == d.nxt;
    match x.state
    case Established => !FinSent(d) && !x.rxClosed
    case CloseWait => !FinSent(d) && x.rxClosed
    case FinWait1 => FinSent(d) && !acked && !x.rxClosed
    case FinWait2 => FinSent(d) && acked && !x.rxClosed
    case Closing => FinSent(d) && !acked && x.rxClosed
    case LastAck => FinSent(d) && !acked && x.rxClosed
    case TimeWait => FinSent(d) && acked && x.rxClosed
    case Closed => FinSent(d) && acked && x.rxClosed
  }

  ghost predicate SenderOk(d: Dir, x: Sock) {
    && x.una == Wire(d.base, d.una) && x.nxt == Wire(d.base, d.nxt) && d.una <= d.nxt && |d.S| <= d.nxt <= |d.S| + 1
    && (x.tx.Nothing? <==> d.una == d.nxt) && (x.tx.Sent? ==> FlightOk(d, x.tx))
    && StateOk(d, x) && (FinSent(d) || x.finPending ==> x.shutWr)
  }

  ghost predicate ReceiverOk(d: Dir, y: Sock, got: Bytes) {
    && y.rcv == Wire(d.base, d.rcv) && d.una <= d.rcv <= d.nxt && |d.S| <= d.nxt <= |d.S| + 1
    && got == (if d.rcv <= |d.S| then d.S[..d.rcv] else d.S) && (y.rxClosed <==> d.rcv == |d.S| + 1) && |y.rx| <= BUF_MAX
  }

  /** A segment on the wire stands at position `a` of its own direction `d` and acknowledges
      position `k` of the other one; it never says more than was so when it was sent. */
  ghost predicate SegmentAt(d: Dir, e: Dir, g: Segment, a: nat, k: nat) {
    && g.num == Wire(d.base, a) && g.ack == Wire(e.base, k) && a <= d.nxt && k <= e.rcv && |g.data| <= CHUNK_MAX
    && (g.fin ==> g.data == [] && a == |d.S| && FinSent(d))
    && (g.data != [] ==> a + |g.data| <= |d.S| && g.data == d.S[a..a + |g.data|])
  }

  ghost predicate Genuine(d: Dir, e: Dir, g: Segment) {
    exists a: nat, k: nat :: SegmentAt(d, e, g, a, k)
  }

  ghost predicate NetOk(d: Dir, e: Dir, net: set<Segment>) {
    forall g :: g in net ==> Genuine(d, e, g)
  }

  /** The network delivers nothing so old that its numbers could be mistaken. */
  ghost predicate Timely(d: Dir, e: Dir, g: Segment) {
    exists a: nat, k: nat :: SegmentAt(d, e, g, a, k) && d.rcv < a + HALF && e.una < k + HALF
  }

  /** The positions of a direction only move forward, and its stream only grows. */
  ghost predicate Later(d: Dir, d': Dir) {
    && d'.base == d.base && |d.S| <= |d'.S| && d.S == d'.S[..|d.S|] && d.nxt <= d'.nxt && d.rcv <= d'.rcv
    && (FinSent(d) ==> d'.S == d.S)
  }

  lemma SliceOfPrefix(s: Bytes, t: Bytes, a: nat, b: nat)
    requires |s| <= |t| && s == t[..|s|] && a <= b <= |s|
    ensures t[a..b] == s[a..b]
  {
    assert forall i :: a <= i < b ==> t[..|s|][i] == t[i];
  }

  lemma SliceOfSlice(s: Bytes, a: nat, len: nat, trim: nat, n: nat)
    requires a + len <= |s| && trim + n <= len
    ensures s[a..a + len][trim..][..n] == s[a + trim..a + trim + n]
  {
  }

  lemma StillGenuine(d: Dir, e: Dir, d': Dir, e': Dir, g: Segment)
    requires Genuine(d, e, g) && Later(d, d') && Later(e, e') && d'.nxt <= |d'.S| + 1
    ensures Genuine(d', e', g)
  {
    var a: nat, k: nat :| SegmentAt(d, e, g, a, k);
    if g.data != [] {
      SliceOfPrefix(d.S, d'.S, a, a + |g.data|);
    }
    assert SegmentAt(d', e', g, a, k);
  }

  ghost predicate OutOk(d: Dir, e: Dir, out: seq<Segment>) {
    forall i :: 0 <= i < |out| ==> Genuine(d, e, out[i])
  }

  lemma OutLater(d: Dir, e: Dir, d': Dir, e': Dir, out: seq<Segment>)
    requires OutOk(d, e, out) && Later(d, d') && Later(e, e') && d'.nxt <= |d'.S| + 1
    ensures OutOk(d', e', out)
  {
    forall i | 0 <= i < |out| ensures Genuine(d', e', out[i]) {
      StillGenuine(d, e, d', e', out[i]);
    }
  }

  lemma AckGenuine(d: Dir, e: Dir, x: Sock)
    requires x.nxt == Wire(d.base, d.nxt) && x.rcv == Wire(e.base, e.rcv)
    ensures Genuine(d, e, AckOf(x))
  {
    assert SegmentAt(d, e, AckOf(x), d.nxt, e.rcv);
  }

  // ---- the parts of `process_tcp_established` ----

  /** An acknowledgement of position `k` makes way for a FIN that waited. */
  predicate FinDue(d: Dir, x: Sock, k: nat) { x.finPending && MayWrite(x.state) && d.una < k == d.nxt }

  /** Which side closed first. */
  predicate ClosedFirst(state: State) { state == FinWait1 || state == FinWait2 || state == Closing || state == TimeWait }
  predicate ClosedSecond(state: State) { state == CloseWait || state == LastAck || state == Closed }

  /** A connection that is open gets to be closed from the side whose FIN was first, and stays so. */
  ghost predicate Diagram(x: Sock, d': Dir, x': Sock) {
    && (x.state == Established ==> (ClosedFirst(x'.state) <==> FinSent(d')))
    && (ClosedFirst(x.state) ==> ClosedFirst(x'.state)) && (ClosedSecond(x.state) ==> ClosedSecond(x'.state))
  }

  /** The state after an acknowledgement of position `k`. */
  function Acked(d: Dir, x: Sock, k: nat, sent: bool): State {
    if FinDue(d, x, k) && sent then (if x.state == Established then FinWait1 else LastAck)
    else if k < d.nxt || k == d.una then x.state
    else if x.state == FinWait1 then FinWait2
    else if x.state == Closing then TimeWait
    else if x.state == LastAck then Closed
    else x.state
  }

  /** The acknowledgement part in stream positions. */
  lemma AckShape(d: Dir, x: Sock, ack: nat, k: nat, sent: bool)
    requires SenderOk(d, x) && ack == Wire(d.base, k) && d.una <= k <= d.nxt
    ensures var r := AckAdvance(x, ack, sent);
            var due := FinDue(d, x, k) && sent;
            && r.out == (if due then [AckOf(x).(fin := true)] else [])
            && (if ack == x.una then r.s else AckState(r.s, ack))
               == x.(una := ack, nxt := Wire(d.base, d.nxt + if due then 1 else 0), finPending := x.finPending && !due, state := Acked(d, x, k, sent),
                     tx := if k < d.nxt then x.tx else if due then Sent(x.nxt, [], true) else Nothing)
  {
    hide Wire, SeqLt, SeqGt, Plus;
    WireOrder(d.base, k, d.una);
    WireOrder(d.base, k, d.nxt);
    WireOrder(d.base, k, d.nxt + 1);
    WirePlus(d.base, d.nxt, 1);
    if x.tx.Sent? {
      var n := |x.tx.data| + if x.tx.fin then 1 else 0;
      WirePlus(d.base, d.nxt - n, n);
    }
  }

  lemma AckPart(d: Dir, e: Dir, x: Sock, y: Sock, gotX: Bytes, gotY: Bytes, ack: nat, k: nat, sent: bool) returns (d': Dir)
    requires SenderOk(d, x) && ReceiverOk(d, y, gotY) && ReceiverOk(e, x, gotX)
    requires ack == Wire(d.base, k) && d.una <= k <= d.rcv
    ensures var r := AckAdvance(x, ack, sent);
            var s := if ack == x.una then r.s else AckState(r.s, ack);
            var due := FinDue(d, x, k) && sent;
            && Later(d, d') && d' == d.(una := k, nxt := d.nxt + if due then 1 else 0) && d'.nxt <= |d.S| + 1
            && SenderOk(d', s) && ReceiverOk(d', y, gotY) && ReceiverOk(e, s, gotX) && OutOk(d', e, r.out) && Diagram(x, d', s)
            && s == x.(una := s.una, nxt := s.nxt, finPending := x.finPending && !due, state := s.state,
                       tx := if k < d.nxt then x.tx else if due then Sent(x.nxt, [], true) else Nothing)
            && r.out == if due then [AckOf(x).(fin := true)] else []
  {
    hide Wire, AckAdvance, AckState;
    AckShape(d, x, ack, k, sent);
    d' := d.(una := k);
    var r := AckAdvance(x, ack, sent);
    if r.out != [] {
      d' := d'.(nxt := d.nxt + 1);
      assert SegmentAt(d', e, r.out[0], d.nxt, e.rcv);
    }
  }

  /** As much of `data` as the ring has room for is taken. */
  function Filled(y: Sock, data: Bytes): Taken {
    var space := if |y.rx| <= BUF_MAX then BUF_MAX - |y.rx| else 0;
    var n := if |data| > space then space else |data|;
    var s := y.(rx := y.rx + data[..n], rcv := Plus(y.rcv, n));
    Go(s, [AckOf(s)], y.rcv, |data|)
  }

  lemma TakeDataCases(y: Sock, g: Segment)
    ensures g.data == [] ==> TakeData(y, g) == Go(y, [], g.num, 0)
    ensures g.data != [] && y.rxClosed ==> TakeData(y, g) == Done(y, [AckOf(y)])
    ensures g.data != [] && !y.rxClosed && !SeqLt(g.num, y.rcv) ==> TakeData(y, g) == if g.num != y.rcv then Done(y, [AckOf(y)]) else Filled(y, g.data)
    ensures g.data != [] && !y.rxClosed && SeqLt(g.num, y.rcv) ==>
              var trim := (y.rcv - g.num) % W;
              TakeData(y, g) == if trim >= |g.data| then Go(y, [AckOf(y)], g.num, 0) else Filled(y, g.data[trim..])
  {
    hide SeqLt, Plus;
  }

  /** How many bytes of a segment at position `a` the receiver takes. */
  function Takes(d: Dir, y: Sock, g: Segment, a: nat): nat {
    if y.rxClosed || d.rcv < a || a + |g.data| <= d.rcv || |y.rx| > BUF_MAX then 0 else Min(a + |g.data| - d.rcv, BUF_MAX - |y.rx|)
  }

  function Min(a: nat, b: nat): nat { if a <= b then a else b }

  /** The payload part in stream positions: the next `n` bytes of the stream go into the ring. */
  lemma DataShape(d: Dir, e: Dir, y: Sock, gotY: Bytes, g: Segment, a: nat, k: nat)
    requires ReceiverOk(d, y, gotY) && SegmentAt(d, e, g, a, k) && d.rcv < a + HALF && d.nxt <= d.rcv + CHUNK_MAX
    ensures var t, n := TakeData(y, g), Takes(d, y, g, a);
            && (n > 0 ==> d.rcv + n <= |d.S|)
            && t.s == y.(rx := y.rx + (if n == 0 then [] else d.S[d.rcv..d.rcv + n]), rcv := Wire(d.base, d.rcv + n))
            && (if g.data == [] then t == Go(y, [], g.num, 0) else t.out == [AckOf(t.s)])
  {
    hide Wire, SeqLt, SeqGt, Plus, TakeData, Filled;
    assert y.rx + [] == y.rx;
    TakeDataCases(y, g);
    WireOrder(d.base, a, d.rcv);
    var trim := if a < d.rcv then d.rcv - a else 0;
    if g.data != [] && !y.rxClosed && trim < |g.data| && a <= d.rcv {
      FilledShape(d, y, g.data, a, trim);
      assert trim == 0 ==> g.data[trim..] == g.data;
    }
  }

  lemma FilledShape(d: Dir, y: Sock, data: Bytes, a: nat, trim: nat)
    requires y.rcv == Wire(d.base, d.rcv) && d.rcv == a + trim && trim < |data| && a + |data| <= |d.S| && data == d.S[a..a + |data|]
    requires |y.rx| <= BUF_MAX
    ensures var t, n := Filled(y, data[trim..]), Min(a + |data| - d.rcv, BUF_MAX - |y.rx|);
            t.Go? && t.s == y.(rx := y.rx + d.S[d.rcv..d.rcv + n], rcv := Wire(d.base, d.rcv + n)) && t.out == [AckOf(t.s)]
  {
    hide Wire, Plus, AckOf;
    var rest := data[trim..];
    var space := if |y.rx| <= BUF_MAX then BUF_MAX - |y.rx| else 0;
    var n := if |rest| > space then space else |rest|;
    SliceOfSlice(d.S, a, |data|, trim, n);
    WirePlus(d.base, d.rcv, n);
  }

  /** What a segment does to the receiver: the bytes it adds are the next of the stream. */
  lemma DataPart(d: Dir, e: Dir, x: Sock, y: Sock, gotY: Bytes, g: Segment, a: nat, k: nat) returns (d': Dir, gotY': Bytes)
    requires SenderOk(d, x) && ReceiverOk(d, y, gotY) && SenderOk(e, y)
    requires SegmentAt(d, e, g, a, k) && d.rcv < a + HALF
    ensures var t := TakeData(y, g);
            && Later(d, d') && d' == d.(rcv := d.rcv + Takes(d, y, g, a)) && d'.rcv <= d.nxt && SenderOk(d', x) && ReceiverOk(d', t.s, gotY')
            && SenderOk(e, t.s) && OutOk(e, d', t.out) && gotY <= gotY' && t.s == y.(rx := y.rx + gotY'[|gotY|..], rcv := t.s.rcv)
            && (if g.data == [] then t == Go(y, [], g.num, 0) else t.out == [AckOf(t.s)])
  {
    hide Wire, TakeData;
    DataShape(d, e, y, gotY, g, a, k);
    var n := Takes(d, y, g, a);
    var t := TakeData(y, g);
    d' := d.(rcv := d.rcv + n);
    gotY' := if n == 0 then gotY else d.S[..d.rcv + n];
    if n > 0 {
      assert gotY' == gotY + d.S[d.rcv..d.rcv + n];
    }
    AckGenuine(e, d', t.s);
  }

  /** A FIN moves the receive edge only from the end of the stream. */
  lemma FinPart(d: Dir, e: Dir, x: Sock, y: Sock, gotY: Bytes, g: Segment, a: nat, k: nat) returns (d': Dir)
    requires SenderOk(d, x) && ReceiverOk(d, y, gotY) && SenderOk(e, y)
    requires SegmentAt(d, e, g, a, k) && g.fin
    ensures var f := TakeFin(y, g.num, 0);
            && Later(d, d') && d' == d.(rcv := d.rcv + if a == d.rcv then 1 else 0) && d'.rcv <= d.nxt && SenderOk(d', x) && ReceiverOk(d', f.s, gotY)
            && SenderOk(e, f.s) && OutOk(e, d', f.out) && Diagram(y, e, f.s)
            && f.s == y.(rcv := f.s.rcv, rxClosed := f.s.rxClosed, state := f.s.state) && f.out == [AckOf(f.s)]
  {
    hide Wire, SeqLt, SeqGt, Plus;
    d' := d;
    AckGenuine(e, d, y);
    WirePlus(d.base, a, 0);
    WirePlus(d.base, d.rcv, 1);
    WireOrder(d.base, a, d.rcv);
    WireOrder(e.base, e.una, e.nxt);
    if a == d.rcv {
      d' := d.(rcv := d.rcv + 1);
      AckGenuine(e, d', y.(rcv := Plus(y.rcv, 1), rxClosed := true));
    }
  }

  /** Payload and FIN together. */
  lemma PayloadPart(d: Dir, e: Dir, x: Sock, y: Sock, gotY: Bytes, g: Segment, a: nat, k: nat) returns (d': Dir, gotY': Bytes)
    requires SenderOk(d, x) && ReceiverOk(d, y, gotY) && SenderOk(e, y)
    requires SegmentAt(d, e, g, a, k) && d.rcv < a + HALF
    ensures var p := Payload(y, g);
            && Later(d, d') && d' == d.(rcv := d.rcv + Takes(d, y, g, a) + if g.fin && a == d.rcv then 1 else 0) && d'.rcv <= d.nxt
            && SenderOk(d', x) && ReceiverOk(d', p.s, gotY') && SenderOk(e, p.s) && OutOk(e, d', p.out) && Diagram(y, e, p.s) && gotY <= gotY'
            && p.s == y.(rcv := p.s.rcv, rxClosed := p.s.rxClosed, state := p.s.state, rx := y.rx + gotY'[|gotY|..])
            && p.out == if g.data == [] && !g.fin then [] else [AckOf(p.s)]
  {
    hide Wire, SenderOk, ReceiverOk, SegmentAt, TakeData, TakeFin, Genuine, StateOk;
    d', gotY' := DataPart(d, e, x, y, gotY, g, a, k);
    var t := TakeData(y, g);
    SegmentLater(d, e, d', e, g, a, k);
    if g.fin {
      d' := FinPart(d', e, x, t.s, gotY', g, a, k);
      assert t.out + TakeFin(t.s, t.num, t.len).out == TakeFin(t.s, t.num, t.len).out;
    } else {
      SameDiagram(y, e);
    }
  }

  lemma SameDiagram(y: Sock, e: Dir)
    requires SenderOk(e, y)
    ensures forall s: Sock :: s.state == y.state ==> Diagram(y, e, s)
  {
    hide Wire;
  }

  // ---- two sockets and a network ----

  /** Both ends, both directions, what each end has ever put in its receive ring, and every
      segment ever sent: the network may deliver any of them at any time, any number of
      times, or never. */
  datatype Link = Link(x: Sock, y: Sock, d: Dir, e: Dir, gotX: Bytes, gotY: Bytes, xy: set<Segment>, yx: set<Segment>)

  ghost predicate LinkOk(l: Link) {
    && SenderOk(l.d, l.x) && ReceiverOk(l.d, l.y, l.gotY) && SenderOk(l.e, l.y) && ReceiverOk(l.e, l.x, l.gotX)
    && NetOk(l.d, l.e, l.xy) && NetOk(l.e, l.d, l.yx)
  }

  /** `sent` says whether the segment that carries data or a FIN could be handed to the device. */
  datatype Action = DoWrite(buf: Bytes, sent: bool) | DoShutdown(sent: bool) | DoRetransmit | DoRead(n: nat) | Receive(g: Segment, sent: bool)

  datatype Move = ByX(act: Action) | ByY(act: Action)

  function AsSet(out: seq<Segment>): set<Segment> { set i | 0 <= i < |out| :: out[i] }

  /** A position moved by as much as its wire number did. */
  function Advance(pos: nat, was: nat, now: nat): nat { pos + (now - was) % W }

  /** The link after end X went from `l.x` to `x'`, took `more` from its writer and sent `out`. */
  function Progress(l: Link, x': Sock, more: Bytes, out: seq<Segment>): Link {
    l.(x := x',
       d := Dir(l.d.base, l.d.S + more, Advance(l.d.una, l.x.una, x'.una), Advance(l.d.nxt, l.x.nxt, x'.nxt), l.d.rcv),
       e := l.e.(rcv := Advance(l.e.rcv, l.x.rcv, x'.rcv)),
       xy := l.xy + AsSet(out))
  }

  function ActX(l: Link, act: Action): Link {
    match act
    case DoWrite(buf, sent) =>
      (match Write(l.x, buf, sent)
       case Refused => l
       case Accepted(s, n, out) => Progress(l, s, if n <= |buf| then buf[..n] else buf, out))
    case DoShutdown(sent) => var r := Shutdown(l.x, sent); Progress(l, r.s, [], r.out)
    case DoRetransmit => var r := Retransmit(l.x); Progress(l, r.s, [], r.out)
    case DoRead(n) => l.(x := l.x.(rx := if n <= |l.x.rx| then l.x.rx[n..] else []))
    case Receive(g, sent) =>
      var r := Process(l.x, g, sent);
      Progress(l, r.s, [], r.out).(gotX := l.gotX + if |l.x.rx| <= |r.s.rx| then r.s.rx[|l.x.rx|..] else [])
  }

  function Flip(l: Link): Link { Link(l.y, l.x, l.e, l.d, l.gotY, l.gotX, l.yx, l.xy) }

  function Move1(l: Link, m: Move): Link {
    match m
    case ByX(act) => ActX(l, act)
    case ByY(act) => Flip(ActX(Flip(l), act))
  }

  function Moves(l: Link, ms: seq<Move>): Link
    decreases |ms|
  {
    if ms == [] then l else Moves(Move1(l, ms[0]), ms[1..])
  }

  /** Segments arrive only if they were sent, and not when hopelessly old. */
  ghost predicate CanHappen(l: Link, act: Action) {
    act.Receive? ==> act.g in l.yx && Timely(l.e, l.d, act.g)
  }

  ghost predicate Happens(l: Link, m: Move) {
    match m
    case ByX(act) => CanHappen(l, act)
    case ByY(act) => CanHappen(Flip(l), act)
  }

  ghost predicate AllCanHappen(l: Link, ms: seq<Move>)
    decreases |ms|
  {
    ms != [] ==> Happens(l, ms[0]) && AllCanHappen(Move1(l, ms[0]), ms[1..])
  }

  /** What a step of X leaves to show. */
  lemma ProgressOk(l: Link, x': Sock, more: Bytes, out: seq<Segment>, d': Dir, e': Dir, gotX': Bytes)
    requires LinkOk(l) && SenderOk(d', x') && ReceiverOk(d', l.y, l.gotY) && SenderOk(e', l.y) && ReceiverOk(e', x', gotX')
    requires Later(l.d, d') && Later(l.e, e') && OutOk(d', e', out)
    requires d'.S == l.d.S + more && e'.S == l.e.S && d'.rcv == l.d.rcv && e'.una == l.e.una && e'.nxt == l.e.nxt
    requires l.d.una <= d'.una < l.d.una + HALF && d'.nxt < l.d.nxt + HALF && e'.rcv < l.e.rcv + HALF
    ensures Progress(l, x', more, out) == l.(x := x', d := d', e := e', xy := l.xy + AsSet(out))
    ensures LinkOk(Progress(l, x', more, out).(gotX := gotX'))
  {
    hide Wire;
    WireOrder(l.d.base, l.d.una, d'.una);
    WireOrder(l.d.base, l.d.nxt, d'.nxt);
    WireOrder(l.e.base, l.e.rcv, e'.rcv);
    forall g | g in l.xy + AsSet(out) ensures Genuine(d', e', g) {
      if g in l.xy {
        StillGenuine(l.d, l.e, d', e', g);
      }
    }
    forall g | g in l.yx ensures Genuine(e', d', g) {
      StillGenuine(l.e, l.d, e', d', g);
    }
  }

  /** A write is taken exactly if the writer has not shut down, nothing is in flight, there is
      something to send within the peer's window, and the device takes the segment. It takes as
      much as fits a segment and the window, and sends it from the end of the stream. */
  lemma WriteExact(l: Link, buf: Bytes, sent: bool)
    requires LinkOk(l)
    ensures var l', n := ActX(l, DoWrite(buf, sent)), Min(Min(|buf|, CHUNK_MAX), l.x.wnd);
            if sent && !l.x.shutWr && l.d.una == l.d.nxt && n > 0
            then l' == l.(x := l.x.(tx := Sent(l.x.nxt, buf[..n], false), nxt := Wire(l.d.base, l.d.nxt + n)),
                          d := Dir(l.d.base, l.d.S + buf[..n], l.d.una, l.d.nxt + n, l.d.rcv),
                          xy := l.xy + {Segment(l.x.nxt, l.x.rcv, buf[..n], false, BUF_MAX - |l.x.rx|)})
            else l' == l
    ensures LinkOk(ActX(l, DoWrite(buf, sent)))
  {
    hide Wire, Plus, Progress;
    match Write(l.x, buf, sent)
    case Refused =>
    case Accepted(s, n, out) =>
      var d' := Dir(l.d.base, l.d.S + buf[..n], l.d.una, l.d.nxt + n, l.d.rcv);
      WirePlus(l.d.base, l.d.nxt, n);
      assert d'.S[l.d.nxt..] == buf[..n] && d'.S[..|l.d.S|] == l.d.S;
      assert l.d.rcv == |l.d.S| ==> d'.S[..l.d.rcv] == l.d.S;
      assert SegmentAt(d', l.e, out[0], l.d.nxt, l.e.rcv);
      OneSent(out[0]);
      ProgressOk(l, s, buf[..n], out, d', l.e, l.gotX);
  }

  /** A shutdown sends the FIN from the end of the stream if nothing is in flight and it was not
      sent before; otherwise it waits for what is in flight. */
  lemma ShutdownExact(l: Link, sent: bool)
    requires LinkOk(l)
    ensures var l' := ActX(l, DoShutdown(sent));
            var now, after := sent && !FinSent(l.d) && l.d.una == l.d.nxt, l.d.una < l.d.nxt;
            && l'.x == l.x.(shutWr := true, finPending := l.x.finPending || after, state := l'.x.state,
                            tx := if now then Sent(l.x.nxt, [], true) else l.x.tx, nxt := Wire(l.d.base, l'.d.nxt))
            && l' == l.(x := l'.x, d := l.d.(nxt := l.d.nxt + if now then 1 else 0),
                        xy := l.xy + if now then {AckOf(l.x).(fin := true)} else {})
            && Diagram(l.x, l'.d, l'.x)
    ensures LinkOk(ActX(l, DoShutdown(sent)))
  {
    hide Wire, Plus, Progress;
    var r := Shutdown(l.x, sent);
    var d' := if r.out == [] then l.d else l.d.(nxt := l.d.nxt + 1);
    assert l.d.S + [] == l.d.S;
    WirePlus(l.d.base, l.d.nxt, 1);
    if r.out != [] {
      assert SegmentAt(d', l.e, r.out[0], l.d.nxt, l.e.rcv);
      OneSent(r.out[0]);
    }
    ProgressOk(l, r.s, [], r.out, d', l.e, l.gotX);
  }

  /** Whatever is not acknowledged goes out again, from its own position and with its own bytes or
      FIN, and nothing else changes. */
  lemma RetransmitExact(l: Link)
    requires LinkOk(l)
    ensures var out := Retransmit(l.x).out;
            && ActX(l, DoRetransmit) == l.(xy := l.xy + AsSet(out)) && |out| == (if l.d.una < l.d.nxt then 1 else 0)
            && forall g :: g in out ==> exists a: nat :: a <= l.d.una && SegmentAt(l.d, l.e, g, a, l.e.rcv) && a + |g.data| + (if g.fin then 1 else 0) == l.d.nxt
    ensures LinkOk(ActX(l, DoRetransmit))
  {
    hide Wire, Plus, Progress;
    var r := Retransmit(l.x);
    assert l.d.S + [] == l.d.S;
    if r.out != [] {
      var n := |l.x.tx.data| + if l.x.tx.fin then 1 else 0;
      assert SegmentAt(l.d, l.e, r.out[0], l.d.nxt - n, l.e.rcv);
    }
    ProgressOk(l, r.s, [], r.out, l.d, l.e, l.gotX);
  }

  lemma LinkParts(l: Link)
    requires LinkOk(l)
    ensures SenderOk(l.d, l.x) && ReceiverOk(l.d, l.y, l.gotY) && SenderOk(l.e, l.y) && ReceiverOk(l.e, l.x, l.gotX) && |l.d.S| <= l.d.nxt
    ensures l.d.nxt <= |l.d.S| + 1 && l.e.nxt <= |l.e.S| + 1 && l.e.nxt <= l.e.rcv + CHUNK_MAX
  {
  }

  lemma WndIrrelevant(d: Dir, e: Dir, x: Sock, s: Sock, got: Bytes)
    requires SenderOk(d, x) && ReceiverOk(e, x, got) && s == x.(wnd := s.wnd)
    ensures SenderOk(d, s) && ReceiverOk(e, s, got)
  {
    hide Wire;
  }

  /** What a segment says stays true as its directions move on. */
  lemma SegmentLater(e: Dir, d: Dir, e': Dir, d': Dir, g: Segment, a: nat, k: nat)
    requires SegmentAt(e, d, g, a, k) && Later(d, d') && Later(e, e') && e'.S == e.S && e'.nxt == e.nxt
    ensures SegmentAt(e', d', g, a, k) && g.ack == Wire(d.base, k) && k <= d.rcv && (g.fin ==> g.data == [])
  {
    hide Wire;
  }

  lemma OutJoin(d: Dir, e: Dir, x: seq<Segment>, y: seq<Segment>)
    requires OutOk(d, e, x) && OutOk(d, e, y)
    ensures OutOk(d, e, x + y)
  {
    hide Genuine;
  }

  lemma GotMore(rx: Bytes, rx': Bytes, got: Bytes, got': Bytes)
    requires got <= got' && rx' == rx + got'[|got|..]
    ensures |rx| <= |rx'| && got + rx'[|rx|..] == got'
  {
  }

  /** A segment with an acknowledgement that is not old, in stream positions. */
  lemma ProcessPart(l: Link, g: Segment, a: nat, k: nat, sent: bool) returns (d': Dir, e': Dir, gotX': Bytes)
    requires LinkOk(l) && SegmentAt(l.e, l.d, g, a, k) && l.e.rcv < a + HALF && l.d.una <= k <= l.d.nxt
    requires !SeqLt(g.ack, l.x.una) && !SeqGt(g.ack, l.x.nxt)
    ensures var r := Process(l.x, g, sent);
            var due, n := FinDue(l.d, l.x, k) && sent, Takes(l.e, l.x, g, a);
            && Later(l.d, d') && Later(l.e, e') && SenderOk(d', r.s) && ReceiverOk(d', l.y, l.gotY) && SenderOk(e', l.y) && ReceiverOk(e', r.s, gotX')
            && OutOk(d', e', r.out) && Diagram(l.x, d', r.s)
            && d' == l.d.(una := k, nxt := l.d.nxt + if due then 1 else 0)
            && e' == l.e.(rcv := l.e.rcv + n + if g.fin && a == l.e.rcv then 1 else 0) && e'.rcv <= e'.nxt
            && l.gotX <= gotX'
            && r.s == l.x.(una := r.s.una, nxt := r.s.nxt, rcv := r.s.rcv, rxClosed := r.s.rxClosed, state := r.s.state, wnd := g.wnd,
                           rx := l.x.rx + gotX'[|l.gotX|..], finPending := l.x.finPending && !due,
                           tx := if k < l.d.nxt then l.x.tx else if due then Sent(l.x.nxt, [], true) else Nothing)
            && r.out == (if due then [AckOf(l.x).(fin := true)] else []) + if g.data == [] && !g.fin then [] else [AckOf(r.s)]
  {
    hide Wire, SeqLt, SeqGt, LinkOk, SenderOk, ReceiverOk, SegmentAt, AckAdvance, AckState, Payload, Genuine, StateOk;
    LinkParts(l);
    var s := l.x.(wnd := g.wnd);
    WndIrrelevant(l.d, l.e, l.x, s, l.gotX);
    SegmentLater(l.e, l.d, l.e, l.d, g, a, k);
    d' := AckPart(l.d, l.e, s, l.y, l.gotX, l.gotY, g.ack, k, sent);
    var r := AckAdvance(s, g.ack, sent);
    var s1 := if g.ack == s.una then r.s else AckState(r.s, g.ack);
    SegmentLater(l.e, l.d, l.e, d', g, a, k);
    e', gotX' := PayloadPart(l.e, d', l.y, s1, l.gotX, g, a, k);
    var p := Payload(s1, g);
    OutLater(d', l.e, d', e', r.out);
    OutJoin(d', e', r.out, p.out);
  }

  lemma ReceiveInOrder(l: Link, g: Segment, a: nat, k: nat, sent: bool)
    requires LinkOk(l) && SegmentAt(l.e, l.d, g, a, k) && l.e.rcv < a + HALF && l.d.una <= k
    requires !SeqLt(g.ack, l.x.una) && !SeqGt(g.ack, l.x.nxt) && k <= l.d.nxt <= l.d.una + CHUNK_MAX
    ensures var r, l' := Process(l.x, g, sent), ActX(l, Receive(g, sent));
            var due, n := FinDue(l.d, l.x, k) && sent, Takes(l.e, l.x, g, a);
            && LinkOk(l') && Diagram(l.x, l'.d, l'.x) && l'.x == r.s && l'.y == l.y && l'.gotY == l.gotY && l'.yx == l.yx && l'.xy == l.xy + AsSet(r.out)
            && l'.d == l.d.(una := k, nxt := l.d.nxt + if due then 1 else 0)
            && l'.e == l.e.(rcv := l.e.rcv + n + if g.fin && a == l.e.rcv then 1 else 0)
            && l.gotX <= l'.gotX
            && r.s == l.x.(una := r.s.una, nxt := r.s.nxt, rcv := r.s.rcv, rxClosed := r.s.rxClosed, state := r.s.state, wnd := g.wnd,
                           rx := l.x.rx + l'.gotX[|l.gotX|..], finPending := l.x.finPending && !due,
                           tx := if k < l.d.nxt then l.x.tx else if due then Sent(l.x.nxt, [], true) else Nothing)
            && r.out == (if due then [AckOf(l.x).(fin := true)] else []) + if g.data == [] && !g.fin then [] else [AckOf(r.s)]
  {
    hide Wire, SeqLt, SeqGt, LinkOk, Progress, SenderOk, ReceiverOk, SegmentAt, Process, Genuine, StateOk, Takes, FinDue, Diagram;
    LinkParts(l);
    var d', e', gotX' := ProcessPart(l, g, a, k, sent);
    var r := Process(l.x, g, sent);
    assert l.d.S + [] == l.d.S;
    GotMore(l.x.rx, r.s.rx, l.gotX, gotX');
    ProgressOk(l, r.s, [], r.out, d', e', gotX');
  }

  lemma OneSent(g: Segment)
    ensures AsSet([g]) == {g} && AsSet([]) == {}
  {
    assert [g][0] in AsSet([g]);
  }

  lemma StaleAck(l: Link, g: Segment, a: nat, k: nat, sent: bool)
    requires LinkOk(l) && SegmentAt(l.e, l.d, g, a, k) && k < l.d.una < k + HALF
    ensures ActX(l, Receive(g, sent)) == l.(x := l.x.(wnd := g.wnd), xy := l.xy + {AckOf(l.x)}) && LinkOk(ActX(l, Receive(g, sent)))
  {
    hide Wire, SeqLt, SeqGt, LinkOk, Progress;
    LinkParts(l);
    WireOrder(l.d.base, k, l.d.una);
    var s := l.x.(wnd := g.wnd);
    AckGenuine(l.d, l.e, s);
    assert l.d.S + [] == l.d.S && l.gotX + s.rx[|l.x.rx|..] == l.gotX;
    ProgressOk(l, s, [], [AckOf(s)], l.d, l.e, l.gotX);
    OneSent(AckOf(s));
  }

  /** Just what a segment does that stands at position `a` and acknowledges position `k`. If the
      acknowledgement is old, it is answered and only its window counts. Otherwise it is believed,
      a FIN that waited for it goes out, and the bytes from the receive edge on, as far as the ring
      has room, go into the ring; data and FIN are answered with the new edge. */
  lemma ReceiveExact(l: Link, g: Segment, a: nat, k: nat, sent: bool)
    requires LinkOk(l) && SegmentAt(l.e, l.d, g, a, k) && l.e.rcv < a + HALF && l.d.una < k + HALF
    ensures k < l.d.una ==> ActX(l, Receive(g, sent)) == l.(x := l.x.(wnd := g.wnd), xy := l.xy + {AckOf(l.x)})
    ensures l.d.una <= k ==>
      var out, l' := Process(l.x, g, sent).out, ActX(l, Receive(g, sent));
      var due := sent && l.x.finPending && !FinSent(l.d) && l.d.una < k == l.d.nxt;
      var n := if !l.x.rxClosed && a <= l.e.rcv < a + |g.data| then Min(a + |g.data| - l.e.rcv, BUF_MAX - |l.x.rx|) else 0;
      && l'.d == l.d.(una := k, nxt := l.d.nxt + if due then 1 else 0)
      && l'.e == l.e.(rcv := l.e.rcv + if g.fin && a == l.e.rcv then 1 else n)
      && (n == 0 ==> l'.x.rx == l.x.rx && l'.gotX == l.gotX)
      && (n > 0 ==> l.e.rcv + n <= |l.e.S| && var more := l.e.S[l.e.rcv..l.e.rcv + n]; l'.x.rx == l.x.rx + more && l'.gotX == l.gotX + more)
      && l'.x.tx == (if k < l.d.nxt then l.x.tx else if due then Sent(l.x.nxt, [], true) else Nothing)
      && l'.x.wnd == g.wnd && l'.x.shutWr == l.x.shutWr && l'.x.finPending == (l.x.finPending && !due) && Diagram(l.x, l'.d, l'.x)
      && out == (if due then [AckOf(l.x).(fin := true)] else []) + (if g.data == [] && !g.fin then [] else [AckOf(l'.x)])
      && l'.xy == l.xy + AsSet(out) && l'.y == l.y && l'.gotY == l.gotY && l'.yx == l.yx
    ensures LinkOk(ActX(l, Receive(g, sent)))
  {
    hide Wire, SeqLt, SeqGt, LinkOk, Progress, SenderOk, Process, Genuine, StateOk, Diagram;
    if k < l.d.una {
      StaleAck(l, g, a, k, sent);
    } else {
      InRange(l, g, a, k);
      ReceiveInOrder(l, g, a, k, sent);
      GotTail(l, ActX(l, Receive(g, sent)));
    }
  }

  lemma InRange(l: Link, g: Segment, a: nat, k: nat)
    requires LinkOk(l) && SegmentAt(l.e, l.d, g, a, k) && l.d.una <= k
    ensures !SeqLt(g.ack, l.x.una) && !SeqGt(g.ack, l.x.nxt) && k <= l.d.nxt <= l.d.una + CHUNK_MAX
    ensures MayWrite(l.x.state) <==> !FinSent(l.d)
    ensures |l.x.rx| <= BUF_MAX && (l.x.rxClosed <==> l.e.rcv == |l.e.S| + 1)
    ensures l.e.rcv <= |l.e.S| + 1 && (g.data == [] ==> Takes(l.e, l.x, g, a) == 0) && (g.fin ==> g.data == [])
  {
    hide Wire, SeqLt, SeqGt;
    WireOrder(l.d.base, k, l.d.una);
    WireOrder(l.d.base, k, l.d.nxt);
  }

  /** The bytes that were added are those between the edges. */
  lemma GotTail(l: Link, l': Link)
    requires LinkOk(l) && LinkOk(l') && l'.e.S == l.e.S && l.e.rcv <= l'.e.rcv && l.gotX <= l'.gotX
    ensures l'.e.rcv == l.e.rcv ==> l'.gotX == l.gotX
    ensures l.e.rcv == |l.e.S| ==> l'.gotX == l.gotX
    ensures l'.e.rcv <= |l.e.S| ==> l'.gotX[|l.gotX|..] == l.e.S[l.e.rcv..l'.e.rcv] && l'.gotX == l.gotX + l.e.S[l.e.rcv..l'.e.rcv]
  {
    hide Wire;
  }

  lemma ReceiveOk(l: Link, g: Segment, sent: bool)
    requires LinkOk(l) && g in l.yx && Timely(l.e, l.d, g)
    ensures LinkOk(ActX(l, Receive(g, sent)))
  {
    hide Wire, LinkOk, ActX;
    var a: nat, k: nat :| SegmentAt(l.e, l.d, g, a, k) && l.e.rcv < a + HALF && l.d.una < k + HALF;
    ReceiveExact(l, g, a, k, sent);
  }

  lemma ActOk(l: Link, act: Action)
    requires LinkOk(l) && CanHappen(l, act)
    ensures LinkOk(ActX(l, act))
  {
    hide Wire;
    match act
    case DoWrite(buf, sent) => WriteExact(l, buf, sent);
    case DoShutdown(sent) => ShutdownExact(l, sent);
    case DoRetransmit => RetransmitExact(l);
    case DoRead(n) =>
    case Receive(g, sent) => ReceiveOk(l, g, sent);
  }

  lemma MoveOk(l: Link, m: Move)
    requires LinkOk(l) && Happens(l, m)
    ensures LinkOk(Move1(l, m))
  {
    hide LinkOk, ActX, CanHappen;
    match m
    case ByX(act) =>
      ActOk(l, act);
    case ByY(act) =>
      FlipOk(l);
      ActOk(Flip(l), act);
      FlipOk(ActX(Flip(l), act));
  }

  /** Every run keeps the link as it should be. */
  lemma {:induction false} RunOk(l: Link, ms: seq<Move>)
    requires LinkOk(l) && AllCanHappen(l, ms)
    ensures LinkOk(Moves(l, ms))
    decreases |ms|
  {
    hide LinkOk, ActX, CanHappen;
    if ms != [] {
      MoveOk(l, ms[0]);
      RunOk(Move1(l, ms[0]), ms[1..]);
    }
  }

  lemma FlipOk(l: Link)
    requires LinkOk(l)
    ensures LinkOk(Flip(l))
  {
    hide SenderOk, ReceiverOk, NetOk;
  }

  /** Two sockets right after the handshake. */
  function Fresh(issX: nat, issY: nat): Link {
    var x := Sock(Wire(issX, 1), Wire(issX, 1), Wire(issY, 1), Nothing, BUF_MAX, [], false, false, Established, false);
    var y := Sock(Wire(issY, 1), Wire(issY, 1), Wire(issX, 1), Nothing, BUF_MAX, [], false, false, Established, false);
    Link(x, y, Dir(Wire(issX, 1), [], 0, 0, 0), Dir(Wire(issY, 1), [], 0, 0, 0), [], [], {}, {})
  }

  /** Stream safety, for every run of two sockets over such a network: what was received is a
      prefix of what was written; acknowledged, received and sent positions keep their order;
      a closed receive side has the whole stream, to which nothing can be added; and the state of
      either end says whether its FIN was sent and acknowledged and the peer's arrived. */
  lemma StreamSafety(issX: nat, issY: nat, ms: seq<Move>)
    requires AllCanHappen(Fresh(issX, issY), ms)
    ensures var l := Moves(Fresh(issX, issY), ms);
            && l.gotY <= l.d.S && l.gotX <= l.e.S
            && l.d.una <= l.d.rcv <= l.d.nxt && l.e.una <= l.e.rcv <= l.e.nxt
            && (l.y.rxClosed ==> l.gotY == l.d.S && forall buf, sent :: Write(l.x, buf, sent) == Refused)
            && (l.x.rxClosed ==> l.gotX == l.e.S && forall buf, sent :: Write(l.y, buf, sent) == Refused)
            && StateOk(l.d, l.x) && StateOk(l.e, l.y)
  {
    var l := Fresh(issX, issY);
    assert LinkOk(l);
    RunOk(l, ms);
  }

  // ---- what is in flight gets through ----

  lemma ThenMoves(l: Link, m: Move, ms: seq<Move>)
    ensures Moves(l, [m] + ms) == Moves(Move1(l, m), ms)
    ensures AllCanHappen(l, [m] + ms) <==> Happens(l, m) && AllCanHappen(Move1(l, m), ms)
  {
    hide Move1, CanHappen;
    assert ([m] + ms)[0] == m && ([m] + ms)[1..] == ms;
  }

  /** The segment that carries what is in flight reaches a peer with an empty ring. */
  lemma Arrives(l: Link, g: Segment, a: nat, sent: bool)
    requires LinkOk(l) && l.x.rx == [] && SegmentAt(l.e, l.d, g, a, l.d.rcv) && a <= l.e.una < l.e.nxt == a + |g.data| + if g.fin then 1 else 0
    ensures var l' := ActX(l, Receive(g, sent));
            && LinkOk(l') && l'.e == l.e.(rcv := l.e.nxt) && l'.d.rcv == l.d.rcv && l'.y == l.y && AckOf(l'.x) in l'.xy
  {
    hide Wire, Process;
    ReceiveExact(l, g, a, l.d.rcv, sent);
    var out, l' := Process(l.x, g, sent).out, ActX(l, Receive(g, sent));
    assert out[|out| - 1] in AsSet(out);
  }

  /** The answer to it reaches the sender. */
  lemma Confirmed(l: Link, sent: bool)
    requires LinkOk(l)
    ensures var g := AckOf(l.y);
            && (g in l.yx ==> CanHappen(l, Receive(g, sent))) && LinkOk(ActX(l, Receive(g, sent)))
            && var l' := ActX(l, Receive(g, sent)); l'.d.una == l.d.rcv == l'.d.rcv && l'.d.S == l.d.S && l'.gotY == l.gotY && l'.y == l.y
  {
    hide Wire;
    assert SegmentAt(l.e, l.d, AckOf(l.y), l.e.nxt, l.d.rcv);
    ReceiveExact(l, AckOf(l.y), l.e.nxt, l.d.rcv, sent);
  }

  /** Whatever the network has done so far: once the peer's reader has made room, a retransmission
      that arrives and whose answer arrives brings everything that was in flight across, and the
      sender knows it. */
  lemma Delivery(l: Link, sentX: bool, sentY: bool) returns (ms: seq<Move>)
    requires LinkOk(l) && l.d.una < l.d.nxt
    ensures |ms| == 4 && ms[0] == ByY(DoRead(BUF_MAX)) && ms[1] == ByX(DoRetransmit) && ms[2].ByY? && ms[2].act.Receive? && ms[3].ByX? && ms[3].act.Receive?
    ensures AllCanHappen(l, ms) && var l' := Moves(l, ms);
            && LinkOk(l') && l'.d.S == l.d.S && l'.d.una == l'.d.rcv == l.d.nxt && l'.gotY == l.d.S && (FinSent(l.d) ==> l'.y.rxClosed)
  {
    hide Wire, LinkOk, ActX, CanHappen, SegmentAt;
    var m0, m1 := ByY(DoRead(BUF_MAX)), ByX(DoRetransmit);
    assert CanHappen(Flip(l), DoRead(BUF_MAX)) && CanHappen(Move1(l, m0), DoRetransmit) by { CanAlways(l); }
    MoveOk(l, m0);
    Drained(l);
    var l0 := Move1(l, m0);
    RetransmitExact(l0);
    var out := Retransmit(l0.x).out;
    var g := out[0];
    assert g in out;
    var a: nat :| a <= l0.d.una && SegmentAt(l0.d, l0.e, g, a, l0.e.rcv) && a + |g.data| + (if g.fin then 1 else 0) == l0.d.nxt;
    var l1 := Move1(l0, m1);
    FlipOk(l1);
    Arrives(Flip(l1), g, a, sentY);
    var l2 := Flip(ActX(Flip(l1), Receive(g, sentY)));
    FlipOk(ActX(Flip(l1), Receive(g, sentY)));
    Confirmed(l2, sentX);
    var ack := AckOf(l2.y);
    var m2, m3 := ByY(Receive(g, sentY)), ByX(Receive(ack, sentX));
    AsSetHas(out, g);
    ArrivesInTime(l1, g, a);
    var l3 := Move1(l2, m3);
    LinkParts(l);
    WholeStream(l3);
    ThenMoves(l2, m3, []);
    ThenMoves(l1, m2, [m3] + []);
    ThenMoves(l0, m1, [m2] + ([m3] + []));
    ThenMoves(l, m0, [m1] + ([m2] + ([m3] + [])));
    ms := [m0] + ([m1] + ([m2] + ([m3] + [])));
  }

  lemma CanAlways(l: Link)
    ensures forall act: Action, l': Link :: !act.Receive? ==> CanHappen(l', act)
  {
  }

  lemma Drained(l: Link)
    requires LinkOk(l)
    ensures Move1(l, ByY(DoRead(BUF_MAX))) == l.(y := l.y.(rx := []))
  {
    hide Wire;
  }

  lemma AsSetHas(out: seq<Segment>, g: Segment)
    requires out == [g]
    ensures g in AsSet(out)
  {
    OneSent(g);
  }

  lemma ArrivesInTime(l: Link, g: Segment, a: nat)
    requires LinkOk(l) && g in l.xy && a <= l.d.una && SegmentAt(l.d, l.e, g, a, l.e.rcv)
    requires l.d.nxt == a + |g.data| + if g.fin then 1 else 0
    ensures CanHappen(Flip(l), Receive(g, true)) && CanHappen(Flip(l), Receive(g, false))
  {
    hide Wire;
  }

  lemma WholeStream(l: Link)
    requires LinkOk(l) && l.d.rcv >= |l.d.S|
    ensures l.gotY == l.d.S && (l.d.rcv > |l.d.S| ==> l.y.rxClosed)
  {
    hide Wire;
  }

  // ---- a FIN that could not be sent ----

  /** The writer has shut down, nothing is in flight, and no FIN has been sent. */
  ghost predicate Unfinished(x: Sock) { x.shutWr && x.tx.Nothing? && MayWrite(x.state) }

  ghost predicate NoFin(net: set<Segment>) { forall g :: g in net ==> !g.fin }

  ghost predicate NoMoreShutdown(ms: seq<Move>) { forall i :: 0 <= i < |ms| ==> !(ms[i].ByX? && ms[i].act.DoShutdown?) }

  /** A FIN whose sending fails leaves such a socket: when the shutdown itself sends it, and when it
      had to wait for an acknowledgement. */
  lemma FailedFin(x: Sock, g: Segment)
    requires MayWrite(x.state)
    ensures x.tx.Nothing? ==> Unfinished(Shutdown(x, false).s)
    ensures var s := Process(x, g, false).s; x.shutWr && x.finPending && s.tx.Nothing? ==> Unfinished(s)
  {
    hide SeqLt, SeqGt, Plus, TakeData, TakeFin;
    var s := x.(wnd := g.wnd);
    var r := AckAdvance(s, g.ack, false);
    assert MayWrite(r.s.state) && AckState(r.s, g.ack) == r.s && r.s.shutWr == x.shutWr;
    KeepsFlight(r.s, g);
    if r.s.tx.Nothing? && x.shutWr {
      DataUnfinished(r.s, g);
      var t := TakeData(r.s, g);
      if t.Go? {
        FinUnfinished(t.s, t.num, t.len);
      }
    }
  }

  lemma KeepsFlight(x: Sock, g: Segment)
    ensures var t := TakeData(x, g); t.s.tx == x.tx && (t.Go? ==> TakeFin(t.s, t.num, t.len).s.tx == x.tx)
  {
    hide SeqLt, Plus;
  }

  lemma UnfinishedStays(l: Link, act: Action)
    requires Unfinished(l.x) && !act.DoShutdown? && NoFin(l.xy)
    ensures Unfinished(ActX(l, act).x) && NoFin(ActX(l, act).xy)
  {
    hide Process, Advance, MayWrite;
    if act.Receive? {
      ProcessUnfinished(l.x, act.g, act.sent);
    }
  }

  ghost predicate NoFinOut(out: seq<Segment>) { forall i :: 0 <= i < |out| ==> !out[i].fin }

  /** With nothing in flight no acknowledgement brings the FIN out. */
  lemma ProcessUnfinished(x: Sock, g: Segment, sent: bool)
    requires Unfinished(x)
    ensures Unfinished(Process(x, g, sent).s) && NoFinOut(Process(x, g, sent).out)
  {
    hide SeqLt, SeqGt, Plus, TakeData, TakeFin;
    var s := x.(wnd := g.wnd);
    var r := AckAdvance(s, g.ack, sent);
    assert r.out == [] && Unfinished(r.s) && AckState(r.s, g.ack) == r.s;
    var s1 := r.s;
    DataUnfinished(s1, g);
    var t := TakeData(s1, g);
    if t.Go? {
      FinUnfinished(t.s, t.num, t.len);
    }
  }

  lemma DataUnfinished(x: Sock, g: Segment)
    requires Unfinished(x)
    ensures Unfinished(TakeData(x, g).s) && NoFinOut(TakeData(x, g).out)
  {
    hide SeqLt, SeqGt, Plus;
  }

  lemma FinUnfinished(x: Sock, num: nat, len: nat)
    requires Unfinished(x)
    ensures Unfinished(TakeFin(x, num, len).s) && NoFinOut(TakeFin(x, num, len).out)
  {
    hide Plus;
  }

  /** It is never sent again: no acknowledgement, timer or write brings it back, and the peer's
      reader never sees the end of the stream, unless the program shuts down or closes once more. */
  lemma {:induction false} FailedFinIsLost(l: Link, ms: seq<Move>)
    requires LinkOk(l) && AllCanHappen(l, ms) && Unfinished(l.x) && NoFin(l.xy) && NoMoreShutdown(ms)
    ensures var l' := Moves(l, ms); Unfinished(l'.x) && NoFin(l'.xy) && !l'.y.rxClosed
    decreases |ms|
  {
    hide ActX, CanHappen, LinkOk, Unfinished;
    if ms == [] {
      StillOpen(l);
    } else {
      if ms[0].ByX? {
        UnfinishedStays(l, ms[0].act);
      } else {
        PeerKeeps(Flip(l), ms[0].act);
      }
      MoveOk(l, ms[0]);
      FailedFinIsLost(Move1(l, ms[0]), ms[1..]);
    }
  }

  lemma StillOpen(l: Link)
    requires LinkOk(l) && Unfinished(l.x)
    ensures !l.y.rxClosed
  {
    hide Wire;
  }

  /** What one end does leaves the other's socket and the segments it sent alone. */
  lemma PeerKeeps(l: Link, act: Action)
    ensures ActX(l, act).y == l.y && ActX(l, act).yx == l.yx
  {
    hide Write, Shutdown, Retransmit, Process, Advance;
  }
}
