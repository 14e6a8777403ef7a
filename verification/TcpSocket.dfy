/** A TCP socket of kernel/net.c as an object: the receive ring and the fields that segment
    processing, writes, shutdown and the timer update in place. Each method is tied to the
    function of the protocol proof. */
module TcpSocket {
  import opened Tcp

  /** The ring index `i` places after `p`. */
  function Idx(p: nat, i: nat): (r: nat)
    requires p < BUF_MAX && i <= BUF_MAX
    ensures r < BUF_MAX
  {
    if p + i >= BUF_MAX then p + i - BUF_MAX else p + i
  }

  class Socket {
    var una: nat
    var nxt: nat
    var rcv: nat
    var tx: InFlight
    var wnd: nat
    var rxClosed: bool
    var finPending: bool
    var state: State
    var shutWr: bool
    const buf: array<int>
    var head: nat
    var tail: nat
    var len: nat

    ghost predicate Valid()
      reads this
    {
      buf.Length == BUF_MAX && head < BUF_MAX && len <= BUF_MAX && tail == Idx(head, len)
    }

    /** What the ring holds, oldest byte first. */
    ghost function Rx(): (r: Bytes)
      requires Valid()
      reads this, buf
    {
      seq(len, i requires 0 <= i < len && Valid() reads this, buf => buf[Idx(head, i)])
    }

    ghost function V(): Sock
      requires Valid()
      reads this, buf
    {
      Sock(una, nxt, rcv, tx, wnd, Rx(), rxClosed, finPending, state, shutWr)
    }

    /** Established, with nothing sent or received. */
    constructor (iss: nat, irs: nat)
      requires iss < W && irs < W
      ensures Valid() && fresh(buf)
      ensures V() == Sock(Plus(iss, 1), Plus(iss, 1), Plus(irs, 1), Nothing, BUF_MAX, [], false, false, Established, false)
    {
      una, nxt, rcv := Plus(iss, 1), Plus(iss, 1), Plus(irs, 1);
      tx, wnd, rxClosed, finPending, state, shutWr := Nothing, BUF_MAX, false, false, Established, false;
      buf := new int[BUF_MAX](_ => 0);
      head, tail, len := 0, 0, 0;
    }

    /** `tcp_rx_write`. */
    method RxWrite(data: Bytes) returns (n: nat)
      requires Valid()
      modifies buf, `tail, `len
      ensures Valid() && n == (if |data| > BUF_MAX - old(len) then BUF_MAX - old(len) else |data|)
      ensures Rx() == old(Rx()) + data[..n]
    {
      var space := BUF_MAX - len;
      n := if |data| > space then space else |data|;
      for i := 0 to n
        invariant len == old(len) && tail == Idx(head, len + i)
        invariant forall j :: 0 <= j < len ==> buf[Idx(head, j)] == old(buf[Idx(head, j)])
        invariant forall j :: 0 <= j < i ==> buf[Idx(head, len + j)] == data[j]
      {
        buf[tail] := data[i];
        tail := (tail + 1) % BUF_MAX;
      }
      len := len + n;
      forall j | 0 <= j < len ensures Rx()[j] == (old(Rx()) + data[..n])[j] {
        if j >= old(len) {
          assert buf[Idx(head, old(len) + (j - old(len)))] == data[j - old(len)];
        }
      }
    }

    /** `tcp_rx_read`. */
    method RxRead(want: nat) returns (out: Bytes)
      requires Valid()
      modifies `head, `len
      ensures Valid() && |out| == (if want > old(len) then old(len) else want)
      ensures out == old(Rx())[..|out|] && Rx() == old(Rx())[|out|..]
    {
      var n := if want > len then len else want;
      out := [];
      for i := 0 to n
        invariant len == old(len) && |out| == i && head == Idx(old(head), i) && out == old(Rx())[..i]
      {
        out := out + [buf[head]];
        head := (head + 1) % BUF_MAX;
      }
      len := len - n;
      forall j | 0 <= j < len ensures Rx()[j] == old(Rx())[n..][j] {
        assert Idx(head, j) == Idx(old(head), n + j);
      }
    }

    method AckNow() returns (g: Segment)
      requires Valid()
      ensures g == AckOf(V())
    {
      g := Segment(nxt, rcv, [], false, BUF_MAX - len);
    }

    /** `tcp_send_fin_now`. */
    method SendFin(sent: bool) returns (out: seq<Segment>)
      requires Valid()
      modifies `tx, `nxt, `state
      ensures Valid() && V() == FinNow(old(V()), sent).s && out == FinNow(old(V()), sent).out
    {
      if !sent {
        tx := Nothing;
        return [];
      }
      var g := AckNow();
      out := [g.(fin := true)];
      tx, nxt := Sent(nxt, [], true), Plus(nxt, 1);
      if state == Established {
        state := FinWait1;
      } else if state == CloseWait {
        state := LastAck;
      }
    }

    /** `tcp_ack_advance` on an acknowledgement that is in range. */
    method OnAck(ack: nat, sent: bool) returns (out: seq<Segment>)
      requires Valid()
      modifies `una, `tx, `nxt, `state, `finPending
      ensures Valid() && V() == AckAdvance(old(V()), ack, sent).s && out == AckAdvance(old(V()), ack, sent).out
    {
      hide SeqLt, Plus;
      out := [];
      if ack == una {
        return;
      }
      una := ack;
      if tx.Nothing? || SeqLt(ack, TxEnd(tx)) {
        return;
      }
      tx := Nothing;
      if finPending && MayWrite(state) {
        out := SendFin(sent);
        finPending := !sent;
      }
    }

    /** The state changes that follow. */
    method OnAcked(ack: nat)
      requires Valid()
      modifies `state, `rxClosed
      ensures Valid() && V() == AckState(old(V()), ack)
    {
      if ack == nxt {
        if state == FinWait1 {
          state := if rxClosed then TimeWait else FinWait2;
        } else if state == Closing {
          state := TimeWait;
        } else if state == LastAck {
          state, rxClosed := Closed, true;
        }
      }
    }

    /** The payload part; `go` says whether a FIN is still to be looked at. */
    method OnData(g: Segment) returns (go: bool, num: nat, n: nat, out: seq<Segment>)
      requires Valid()
      modifies buf, `tail, `len, `rcv
      ensures Valid() && var t := TakeData(old(V()), g); V() == t.s && out == t.out && go == t.Go? && (go ==> num == t.num && n == t.len)
    {
      hide SeqLt;
      num, n, out := g.num, 0, [];
      if g.data == [] {
        return true, num, 0, [];
      }
      var ack := AckNow();
      if rxClosed {
        return false, num, 0, [ack];
      }
      var data := g.data;
      if SeqLt(g.num, rcv) {
        var trim := (rcv - g.num) % W;
        if trim >= |data| {
          return true, num, 0, [ack];
        }
        data, num := data[trim..], rcv;
      }
      if num != rcv {
        return false, num, 0, [ack];
      }
      var wrote := RxWrite(data);
      rcv := Plus(rcv, wrote);
      ack := AckNow();
      return true, num, |data|, [ack];
    }

    method OnFin(num: nat, n: nat) returns (g: Segment)
      requires Valid()
      modifies `rcv, `rxClosed, `state
      ensures Valid() && V() == TakeFin(old(V()), num, n).s && [g] == TakeFin(old(V()), num, n).out
    {
      hide Plus;
      if Plus(num, n) != rcv {
        g := AckNow();
        return;
      }
      rcv, rxClosed := Plus(rcv, 1), true;
      g := AckNow();
      if state == Established {
        state := CloseWait;
      } else if state == FinWait1 {
        state := if una == nxt then TimeWait else Closing;
      } else if state == FinWait2 {
        state := TimeWait;
      }
    }

    /** Payload and FIN. */
    method OnPayload(g: Segment) returns (out: seq<Segment>)
      requires Valid()
      modifies buf, `tail, `len, `rcv, `rxClosed, `state
      ensures Valid() && V() == Payload(old(V()), g).s && out == Payload(old(V()), g).out
    {
      hide SeqLt, SeqGt, Plus, TakeData, TakeFin;
      var go, num, n, more := OnData(g);
      out := more;
      if go && g.fin {
        var f := OnFin(num, n);
        out := out + [f];
      }
    }

    /** `process_tcp_established` for a segment without RST. */
    method OnSegment(g: Segment, sent: bool) returns (out: seq<Segment>)
      requires Valid()
      modifies this, buf
      ensures Valid() && V() == Process(old(V()), g, sent).s && out == Process(old(V()), g, sent).out
    {
      hide SeqLt, SeqGt, Plus, AckAdvance, AckState, Payload;
      wnd := g.wnd;
      assert V() == old(V()).(wnd := g.wnd);
      if SeqLt(g.ack, una) || SeqGt(g.ack, nxt) {
        var ack := AckNow();
        return [ack];
      }
      var moved := g.ack != una;
      out := OnAck(g.ack, sent);
      if moved {
        OnAcked(g.ack);
      }
      var more := OnPayload(g);
      out := out + more;
    }

    /** `net_socket_write`, once it does not wait. */
    method WriteBytes(data: Bytes, sent: bool) returns (ok: bool, n: nat, out: seq<Segment>)
      requires Valid()
      modifies `tx, `nxt
      ensures Valid() && var r := Write(old(V()), data, sent);
              if ok then r.Accepted? && V() == r.s && n == r.n && out == r.out else r.Refused? && V() == old(V())
    {
      hide Plus;
      if shutWr || !MayWrite(state) || tx.Sent? || wnd == 0 {
        return false, 0, [];
      }
      var chunk := if |data| > CHUNK_MAX then CHUNK_MAX else |data|;
      chunk := if chunk > wnd then wnd else chunk;
      if chunk == 0 {
        return false, 0, [];
      }
      var g := AckNow();
      if !sent {
        return false, 0, [];
      }
      tx, nxt := Sent(nxt, data[..chunk], false), Plus(nxt, chunk);
      return true, chunk, [g.(data := data[..chunk])];
    }

    /** The writing half of `net_socket_shutdown`. */
    method ShutdownWrite(sent: bool) returns (out: seq<Segment>)
      requires Valid()
      modifies `shutWr, `finPending, `tx, `nxt, `state
      ensures Valid() && V() == Shutdown(old(V()), sent).s && out == Shutdown(old(V()), sent).out
    {
      hide Plus;
      shutWr, out := true, [];
      if tx.Sent? {
        finPending := true;
      } else if MayWrite(state) {
        out := SendFin(sent);
      }
    }

    /** A retransmission by `tcp_tick`. */
    method Tick() returns (out: seq<Segment>)
      requires Valid()
      ensures V() == Retransmit(V()).s && out == Retransmit(V()).out
    {
      out := [];
      if tx.Sent? {
        out := [Segment(tx.num, rcv, tx.data, tx.fin, BUF_MAX - len)];
      }
    }
  }
}
