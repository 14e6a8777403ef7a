/** TCP data transfer of kernel/net.c between two established sockets: a stop-and-wait sender,
    a receive ring, FIN and retransmission, over 32-bit sequence numbers. A network may lose,
    repeat and reorder segments. */
module Tcp {

  const W: nat := 0x1_0000_0000
  const HALF: nat := 0x8000_0000
  const BUF_MAX: nat := 2048
  const CHUNK_MAX: nat := 1480

  type Bytes = seq<int>

  // ---- sequence arithmetic ----

  /** `tcp_seq_lt` and `tcp_seq_gt`: the sign of the 32-bit difference. */
  predicate SeqLt(a: nat, b: nat) { (a - b) % W >= HALF }
  predicate SeqGt(a: nat, b: nat) { 0 < (a - b) % W < HALF }

  function Plus(a: nat, n: nat): nat { (a + n) % W }

  /** The wire number of stream position `a` when position 0 has number `base`. */
  function Wire(base: nat, a: nat): (r: nat)
    ensures r < W
  {
    (base + a) % W
  }

  /** The comparisons are right for positions less than 2^31 apart. */
  lemma WireOrder(base: nat, a: nat, b: nat)
    requires a < b + HALF && b < a + HALF
    ensures SeqLt(Wire(base, a), Wire(base, b)) <==> a < b
    ensures SeqGt(Wire(base, a), Wire(base, b)) <==> a > b
    ensures Wire(base, a) == Wire(base, b) <==> a == b
    ensures a <= b ==> (Wire(base, b) - Wire(base, a)) % W == b - a
  {
  }

  lemma WirePlus(base: nat, a: nat, n: nat)
    ensures Plus(Wire(base, a), n) == Wire(base, a + n)
  {
  }

  // ---- a socket and its segments ----

  datatype State = Established | CloseWait | FinWait1 | FinWait2 | Closing | LastAck | TimeWait | Closed

  datatype Segment = Segment(num: nat, ack: nat, data: Bytes, fin: bool, wnd: nat)

  /** The one segment in flight; `tx_seg`. */
  datatype InFlight = Nothing | Sent(num: nat, data: Bytes, fin: bool)

  datatype Sock = Sock(una: nat, nxt: nat, rcv: nat, tx: InFlight, wnd: nat, rx: Bytes, rxClosed: bool,
                       finPending: bool, state: State, shutWr: bool)

  function AckOf(s: Sock): Segment { Segment(s.nxt, s.rcv, [], false, if |s.rx| <= BUF_MAX then BUF_MAX - |s.rx| else 0) }

  function MayWrite(state: State): bool { state == Established || state == CloseWait }

  datatype Result = Result(s: Sock, out: seq<Segment>)

  /** `tcp_send_fin_now`; `sent` says whether the segment could be handed to the device. If not,
      nothing is in flight. An acknowledgement that cannot be handed over is one that is lost. */
  function FinNow(s: Sock, sent: bool): Result {
    if !sent then Result(s.(tx := Nothing), [])
    else Result(s.(tx := Sent(s.nxt, [], true), nxt := Plus(s.nxt, 1),
              state := if s.state == Established then FinWait1 else if s.state == CloseWait then LastAck else s.state),
           [AckOf(s).(fin := true)])
  }

  function TxEnd(tx: InFlight): nat
    requires tx.Sent?
  {
    Plus(tx.num, |tx.data| + if tx.fin then 1 else 0)
  }

  /** `tcp_ack_advance` on an acknowledgement that is in range. */
  function AckAdvance(s: Sock, ack: nat, sent: bool): Result {
    if ack == s.una then Result(s, [])
    else
      var s1 := s.(una := ack);
      if s1.tx.Nothing? || SeqLt(ack, TxEnd(s1.tx)) then Result(s1, [])
      else
        var s2 := s1.(tx := Nothing);
        if s2.finPending && MayWrite(s2.state) then
          var r := FinNow(s2, sent);
          Result(r.s.(finPending := !sent), r.out)
        else Result(s2, [])
  }

  /** The state changes of an acknowledgement that moved `una`. */
  function AckState(s: Sock, ack: nat): Sock {
    if ack != s.nxt then s
    else if s.state == FinWait1 then s.(state := if s.rxClosed then TimeWait else FinWait2)
    else if s.state == Closing then s.(state := TimeWait)
    else if s.state == LastAck then s.(state := Closed, rxClosed := true)
    else s
  }

  /** The payload part of `process_tcp_established`; `None` is a segment that is done with. */
  datatype Taken = Done(s: Sock, out: seq<Segment>) | Go(s: Sock, out: seq<Segment>, num: nat, len: nat)

  function TakeData(s: Sock, g: Segment): Taken {
    if g.data == [] then Go(s, [], g.num, 0)
    else if s.rxClosed then Done(s, [AckOf(s)])
    else
      var old_ := SeqLt(g.num, s.rcv);
      var trim := if old_ then (s.rcv - g.num) % W else 0;
      if old_ && trim >= |g.data| then Go(s, [AckOf(s)], g.num, 0)
      else
        var num, data := if old_ then s.rcv else g.num, if old_ then g.data[trim..] else g.data;
        if num != s.rcv then Done(s, [AckOf(s)])
        else
          var space := if |s.rx| <= BUF_MAX then BUF_MAX - |s.rx| else 0;
          var n := if |data| > space then space else |data|;
          var s' := s.(rx := s.rx + data[..n], rcv := Plus(s.rcv, n));
          Go(s', [AckOf(s')], num, |data|)
  }

  /** The FIN part. */
  function TakeFin(s: Sock, num: nat, len: nat): Result {
    var fin := Plus(num, len);
    if fin == s.rcv then
      var s1 := s.(rcv := Plus(s.rcv, 1), rxClosed := true);
      Result(s1.(state := if s.state == Established then CloseWait
                          else if s.state == FinWait1 then (if s.una == s.nxt then TimeWait else Closing)
                          else if s.state == FinWait2 then TimeWait
                          else s.state), [AckOf(s1)])
    else Result(s, [AckOf(s)])
  }

  /** What `process_tcp_established` does after the acknowledgement. */
  function Payload(s: Sock, g: Segment): Result {
    var t := TakeData(s, g);
    if t.Done? || !g.fin then Result(t.s, t.out)
    else
      var f := TakeFin(t.s, t.num, t.len);
      Result(f.s, t.out + f.out)
  }

  /** `process_tcp_established` for a segment without RST. */
  function Process(s0: Sock, g: Segment, sent: bool): Result {
    var s := s0.(wnd := g.wnd);
    if SeqLt(g.ack, s.una) || SeqGt(g.ack, s.nxt) then Result(s, [AckOf(s)])
    else
      var r := AckAdvance(s, g.ack, sent);
      var p := Payload(if g.ack == s.una then r.s else AckState(r.s, g.ack), g);
      Result(p.s, r.out + p.out)
  }

  datatype Accepted = Refused | Accepted(s: Sock, n: nat, out: seq<Segment>)

  /** `net_socket_write`, once it does not wait. */
  function Write(s: Sock, buf: Bytes, sent: bool): Accepted {
    if s.shutWr || !MayWrite(s.state) || s.tx.Sent? || s.wnd == 0 then Refused
    else
      var n := if |buf| > CHUNK_MAX then CHUNK_MAX else |buf|;
      var m := if n > s.wnd then s.wnd else n;
      if m == 0 || !sent then Refused
      else Accepted(s.(tx := Sent(s.nxt, buf[..m], false), nxt := Plus(s.nxt, m)), m, [AckOf(s).(data := buf[..m])])
  }

  /** The writing half of `net_socket_shutdown`. */
  function Shutdown(s: Sock, sent: bool): Result {
    var s1 := s.(shutWr := true);
    if s1.tx.Sent? then Result(s1.(finPending := true), [])
    else if MayWrite(s1.state) then FinNow(s1, sent)
    else Result(s1, [])
  }

  /** A retransmission by `tcp_tick`. */
  function Retransmit(s: Sock): Result {
    if s.tx.Nothing? then Result(s, [])
    else Result(s, [Segment(s.tx.num, s.rcv, s.tx.data, s.tx.fin, AckOf(s).wnd)])
  }
}
