/** i2c-xiic.c: the transmit side of the Xilinx I2C driver. The controller drains its 16-word FIFO
    at any time; the driver pushes words from its interrupt thread. */
module Xiic {
  import opened Bytes

  const TX_FIFO_DEPTH: nat := 16
  const DYN_START: nat := 0x100
  const DYN_STOP: nat := 0x200
  const READ_OPERATION: nat := 1

  type Addr = x: int | 0 <= x < 128

  /** A message: what to write, or how many bytes to read. A read asks for at least one byte, and its
      count has to fit the eight data bits of a FIFO word. */
  type Count = x: int | 1 <= x < 256 witness 1

  datatype Msg =
    | Write(addr: Addr, data: seq<byte>, noStart: bool)
    | Read(addr: Addr, len: Count, noStart: bool)

  function Len(m: Msg): nat {
    if m.Write? then |m.data| else m.len
  }

  /** Writes, then at most one read. */
  predicate OneFinalRead(msgs: seq<Msg>) {
    forall i :: 0 <= i < |msgs| - 1 ==> msgs[i].Write?
  }

  // ---- the stream of words a transfer stands for -------------------------------------------------

  /** The word that starts a message; a last message with nothing to write stops the bus at once. */
  function StartWords(m: Msg, last: bool): seq<nat> {
    if m.noStart then []
    else if m.Read? then [2 * m.addr + READ_OPERATION + DYN_START]
    else [2 * m.addr + DYN_START + (if last && m.data == [] then DYN_STOP else 0)]
  }

  /** The bytes of a write; the last one of the last message stops the bus. */
  function DataWords(d: seq<byte>, last: bool): (r: seq<nat>)
    ensures |r| == |d|
    ensures forall i :: 0 <= i < |d| ==> r[i] == d[i] + (if last && i == |d| - 1 then DYN_STOP else 0)
  {
    seq(|d|, i requires 0 <= i < |d| => d[i] + (if last && i == |d| - 1 then DYN_STOP else 0))
  }

  function BodyWords(m: Msg, last: bool): seq<nat> {
    if m.Read? then [m.len + (if last then DYN_STOP else 0)] else DataWords(m.data, last)
  }

  function MsgWords(m: Msg, last: bool): seq<nat> {
    StartWords(m, last) + BodyWords(m, last)
  }

  /** The words of the first `n` messages. */
  function WordsOf(msgs: seq<Msg>, n: nat): seq<nat>
    requires n <= |msgs|
  {
    if n == 0 then [] else WordsOf(msgs, n - 1) + MsgWords(msgs[n - 1], n == |msgs|)
  }

  /** The whole stream. */
  function Stream(msgs: seq<Msg>): seq<nat> {
    WordsOf(msgs, |msgs|)
  }

  /** What has been pushed when message `i` has been started and is at position `pos`. */
  function Sent(msgs: seq<Msg>, i: nat, pos: nat): seq<nat>
    requires i < |msgs| && pos <= Len(msgs[i])
  {
    var m, last := msgs[i], i == |msgs| - 1;
    WordsOf(msgs, i) + StartWords(m, last) + (if m.Read? then BodyWords(m, last) else DataWords(m.data, last)[..pos])
  }

  lemma SentAll(msgs: seq<Msg>, i: nat)
    requires i < |msgs|
    ensures Sent(msgs, i, Len(msgs[i])) == WordsOf(msgs, i + 1)
  {
    var m, last := msgs[i], i == |msgs| - 1;
    if m.Write? {
      assert DataWords(m.data, last)[..|m.data|] == DataWords(m.data, last);
    }
  }

  lemma SentMore(msgs: seq<Msg>, i: nat, pos: nat)
    requires i < |msgs| && msgs[i].Write? && pos < Len(msgs[i])
    ensures var m, last := msgs[i], i == |msgs| - 1;
      Sent(msgs, i, pos + 1) == Sent(msgs, i, pos) + [m.data[pos] + (if last && pos + 1 == |m.data| then DYN_STOP else 0)]
  {
    var m, last := msgs[i], i == |msgs| - 1;
    var w := DataWords(m.data, last);
    assert w[..pos + 1] == w[..pos] + [w[pos]];
  }

  lemma {:induction false} WordsPrefix(msgs: seq<Msg>, i: nat, j: nat)
    requires i <= j <= |msgs|
    ensures WordsOf(msgs, i) <= WordsOf(msgs, j)
    decreases j
  {
    hide MsgWords;
    if i < j {
      WordsPrefix(msgs, i, j - 1);
    }
  }

  /** What has been pushed is always a prefix of the stream. */
  lemma SentPrefix(msgs: seq<Msg>, i: nat, pos: nat)
    requires i < |msgs| && pos <= Len(msgs[i])
    ensures Sent(msgs, i, pos) <= Stream(msgs)
  {
    hide StartWords, WordsOf;
    var m, last := msgs[i], i == |msgs| - 1;
    SentAll(msgs, i);
    WordsPrefix(msgs, i + 1, |msgs|);
    if m.Write? {
      var w := DataWords(m.data, last);
      assert w == w[..pos] + w[pos..];
      assert Sent(msgs, i, Len(m)) == Sent(msgs, i, pos) + w[pos..] by {
        assert w[..Len(m)] == w;
      }
    }
  }

  /** What is left of a transfer from message `i` on: a step for each message and one for each byte. */
  function Work(msgs: seq<Msg>, i: nat): nat
    requires i <= |msgs|
    decreases |msgs| - i
  {
    if i == |msgs| then 0 else 1 + Len(msgs[i]) + Work(msgs, i + 1)
  }

  lemma NextWork(msgs: seq<Msg>, i: nat)
    requires i < |msgs|
    ensures Work(msgs, i) == 1 + Len(msgs[i]) + Work(msgs, i + 1)
  {
  }

  lemma MsgStop(m: Msg, last: bool, k: nat)
    requires k < |MsgWords(m, last)| && MsgWords(m, last)[k] >= DYN_STOP
    ensures last && k == |MsgWords(m, last)| - 1
  {
    var a, b := StartWords(m, last), BodyWords(m, last);
    if k < |a| {
      assert MsgWords(m, last)[k] == a[k];
    } else {
      assert MsgWords(m, last)[k] == b[k - |a|];
    }
  }

  /** Only the last word of a stream can stop the bus. */
  lemma {:induction false} StopIsLast(msgs: seq<Msg>, n: nat, k: nat)
    requires n <= |msgs| && k < |WordsOf(msgs, n)| && WordsOf(msgs, n)[k] >= DYN_STOP
    ensures n == |msgs| && k == |WordsOf(msgs, n)| - 1
    decreases n
  {
    hide MsgWords;
    var a, w := WordsOf(msgs, n - 1), MsgWords(msgs[n - 1], n == |msgs|);
    if k < |a| {
      assert WordsOf(msgs, n)[k] == a[k];
      StopIsLast(msgs, n - 1, k);
    } else {
      assert WordsOf(msgs, n)[k] == w[k - |a|];
      MsgStop(msgs[n - 1], n == |msgs|, k - |a|);
    }
  }

  // ---- the stream as the controller reads it -----------------------------------------------------------

  /** What the controller makes of a word. */
  datatype Heard = Started(addr: nat, read: bool) | Data(b: nat) | Count(n: nat) | Stopped

  /** Bits of a FIFO word: 9 stops the bus, 8 starts a message with the address in bits 7 to 1 and the direction
      in bit 0; behind the start of a read the word holds the number of bytes to receive, otherwise a byte. */
  function HearWord(w: nat, counting: bool): seq<Heard> {
    (if counting then [Heard.Count(w % 256)]
     else if w / 256 % 2 == 1 then [Started(w / 2 % 128, w % 2 == 1)]
     else [Data(w % 256)])
    + (if w / 512 % 2 == 1 then [Stopped] else [])
  }

  function Counting(w: nat, counting: bool): bool {
    !counting && w / 256 % 2 == 1 && w % 2 == 1
  }

  function Hear(ws: seq<nat>, counting: bool): seq<Heard> {
    if ws == [] then [] else HearWord(ws[0], counting) + Hear(ws[1..], Counting(ws[0], counting))
  }

  /** The bytes of a message. */
  function DataOf(d: seq<byte>): (r: seq<Heard>)
    ensures |r| == |d| && forall i :: 0 <= i < |d| ==> r[i] == Data(d[i])
  {
    seq(|d|, i requires 0 <= i < |d| => Data(d[i]))
  }

  /** What a message says: whom it addresses, unless it goes on with the one before, and what it writes, or how
      much it reads. The last one lets go of the bus, unless it has no word that could say so. */
  function SaidOne(m: Msg, last: bool): seq<Heard> {
    (if m.noStart then [] else [Started(m.addr, m.Read?)])
    + (if m.Read? then [Heard.Count(m.len)] else DataOf(m.data))
    + (if last && (m.Read? || m.data != [] || !m.noStart) then [Stopped] else [])
  }

  function Said(msgs: seq<Msg>, n: nat): seq<Heard>
    requires n <= |msgs|
  {
    if n == 0 then [] else Said(msgs, n - 1) + SaidOne(msgs[n - 1], n == |msgs|)
  }

  /** Whether the last word of a stretch starts a read. */
  function Ends(ws: seq<nat>, counting: bool): bool {
    if ws == [] then counting else Ends(ws[1..], Counting(ws[0], counting))
  }

  lemma HearNone(counting: bool)
    ensures Hear([], counting) == [] && Ends([], counting) == counting
  {
  }

  lemma HearCons(ws: seq<nat>, counting: bool)
    requires ws != []
    ensures Hear(ws, counting) == HearWord(ws[0], counting) + Hear(ws[1..], Counting(ws[0], counting))
    ensures Ends(ws, counting) == Ends(ws[1..], Counting(ws[0], counting))
  {
    hide HearWord, Counting;
  }

  lemma {:induction false} HearConcat(a: seq<nat>, b: seq<nat>, counting: bool)
    ensures Hear(a + b, counting) == Hear(a, counting) + Hear(b, Ends(a, counting))
    ensures Ends(a + b, counting) == Ends(b, Ends(a, counting))
    decreases |a|
  {
    hide HearWord, Counting, Hear, Ends;
    if a == [] {
      assert a + b == b;
      HearNone(counting);
    } else {
      assert (a + b)[1..] == a[1..] + b;
      HearCons(a, counting);
      HearCons(a + b, counting);
      HearConcat(a[1..], b, Counting(a[0], counting));
    }
  }

  lemma HearOne(w: nat, counting: bool)
    ensures Hear([w], counting) == HearWord(w, counting) && Ends([w], counting) == Counting(w, counting)
  {
    assert [w][1..] == [];
  }

  lemma HearByte(b: byte, stop: bool)
    ensures var w := b + if stop then DYN_STOP else 0;
      HearWord(w, false) == [Data(b)] + (if stop then [Stopped] else []) && !Counting(w, false)
  {
  }

  lemma {:induction false} HearData(d: seq<byte>, last: bool)
    ensures Hear(DataWords(d, last), false) == DataOf(d) + (if last && d != [] then [Stopped] else [])
    ensures !Ends(DataWords(d, last), false)
    decreases |d|
  {
    hide HearWord, Counting, Hear, Ends;
    if d == [] {
      HearNone(false);
    } else {
      var stop := last && |d| == 1;
      HearCons(DataWords(d, last), false);
      HearByte(d[0], stop);
      assert DataWords(d, last)[1..] == DataWords(d[1..], last);
      assert DataWords(d, last)[0] == d[0] + if stop then DYN_STOP else 0;
      HearData(d[1..], last);
      assert DataOf(d) == [Data(d[0])] + DataOf(d[1..]);
    }
  }

  lemma HearAddress(a: Addr, read: bool, stop: bool)
    ensures var w := 2 * a + (if read then 1 else 0) + DYN_START + if stop then DYN_STOP else 0;
      HearWord(w, false) == [Started(a, read)] + (if stop then [Stopped] else []) && Counting(w, false) == read
  {
    var w := 2 * a + (if read then 1 else 0) + DYN_START + if stop then DYN_STOP else 0;
    assert w / 256 == if stop then 3 else 1;
    assert w / 2 == a + 128 + if stop then 256 else 0;
    assert w % 2 == if read then 1 else 0;
  }

  lemma HearStart(m: Msg, last: bool)
    requires !m.noStart
    ensures Hear(StartWords(m, last), false) ==
            [Started(m.addr, m.Read?)] + if last && m.Write? && m.data == [] then [Stopped] else []
    ensures Ends(StartWords(m, last), false) == m.Read?
  {
    hide HearWord, Counting, Hear, Ends;
    HearAddress(m.addr, m.Read?, last && m.Write? && m.data == []);
    HearOne(StartWords(m, last)[0], false);
  }

  lemma HearCount(n: Count, last: bool)
    ensures Hear([n + if last then DYN_STOP else 0], true) == [Heard.Count(n)] + if last then [Stopped] else []
    ensures !Ends([n + if last then DYN_STOP else 0], true)
  {
    HearOne(n + if last then DYN_STOP else 0, true);
  }

  lemma HearMsg(m: Msg, last: bool)
    ensures var h := Hear(MsgWords(m, last), false);
      |h| == |SaidOne(m, last)| && (h == SaidOne(m, last) <==> (m.noStart ==> m.Write?))
    ensures !Ends(MsgWords(m, last), false)
  {
    hide Hear, Ends, DataWords, DataOf, HearWord, Counting;
    HearConcat(StartWords(m, last), BodyWords(m, last), false);
    if m.noStart {
      HearNone(false);
    } else {
      HearStart(m, last);
    }
    if m.Write? {
      HearData(m.data, last);
      assert m.data == [] ==> DataOf(m.data) == [];
    } else if m.noStart {
      HearOne(BodyWords(m, last)[0], false);
      HearByte(m.len, last);
      assert Hear(MsgWords(m, last), false)[0] == Data(m.len) && SaidOne(m, last)[0] == Heard.Count(m.len);
    } else {
      HearCount(m.len, last);
    }
  }

  /** The first `n` messages start with an address, if they read. */
  predicate ReadsStart(msgs: seq<Msg>, n: nat) {
    forall i :: 0 <= i < |msgs| && i < n && msgs[i].noStart ==> msgs[i].Write?
  }

  lemma {:induction false} HearWords(msgs: seq<Msg>, n: nat)
    requires n <= |msgs|
    ensures var h := Hear(WordsOf(msgs, n), false); |h| == |Said(msgs, n)| && (h == Said(msgs, n) <==> ReadsStart(msgs, n))
    ensures !Ends(WordsOf(msgs, n), false)
    decreases n
  {
    hide MsgWords, SaidOne;
    if n == 0 {
      HearNone(false);
    } else {
      var m, last := msgs[n - 1], n == |msgs|;
      HearWords(msgs, n - 1);
      HearMsg(m, last);
      HearConcat(WordsOf(msgs, n - 1), MsgWords(m, last), false);
      SplitSame(Hear(WordsOf(msgs, n - 1), false), Hear(MsgWords(m, last), false), Said(msgs, n - 1), SaidOne(m, last));
      assert ReadsStart(msgs, n) <==> ReadsStart(msgs, n - 1) && (m.noStart ==> m.Write?);
    }
  }

  lemma SplitSame(a: seq<Heard>, b: seq<Heard>, c: seq<Heard>, d: seq<Heard>)
    requires |a| == |c| && |b| == |d|
    ensures a + b == c + d <==> a == c && b == d
  {
    assert a == (a + b)[..|a|] && b == (a + b)[|a|..] && c == (c + d)[..|a|] && d == (c + d)[|a|..];
  }

  /** The controller reads the stream as the messages it was made of, exactly when no read goes without a start:
      the length of such a read would be taken for a byte to write. */
  lemma StreamSaysMessages(msgs: seq<Msg>)
    ensures Hear(Stream(msgs), false) == Said(msgs, |msgs|) <==>
            forall i :: 0 <= i < |msgs| && msgs[i].Read? ==> !msgs[i].noStart
  {
    HearWords(msgs, |msgs|);
  }

  lemma StreamIs(msgs: seq<Msg>)
    ensures ReadsStart(msgs, |msgs|) ==> Hear(Stream(msgs), false) == Said(msgs, |msgs|)
  {
    StreamSaysMessages(msgs);
  }

  // ---- the driver -----------------------------------------------------------------------------------

  datatype State = DONE | ERROR | START

  datatype Irq = ArbLost | TxError | TxEmpty | RxFull | BusNotBusy | TxHalf

  const NONE: int := -1

  /** struct xiic_i2c and the controller it drives. Messages are named by their index; NONE is NULL. */
  class Driver {
    var msgs: seq<Msg>
    var txMsg: int
    var txPos: nat
    var nmsgs: nat
    var state: State
    var rxMsg: int
    var rxPos: nat
    var rxBuf: seq<byte>       // the bytes stored so far in the buffer of the read
    var txFifo: seq<nat>
    var rxFifo: seq<byte>
    var ier: set<Irq>          // interrupts that are enabled
    ghost var pushed: seq<nat>    // every word written to the transmit register in this transfer
    ghost var received: seq<byte> // every byte the controller has taken from the bus in this transfer

    constructor ()
      ensures fresh(this) && txMsg == NONE && txFifo == []
    {
      msgs, txMsg, txPos, nmsgs, state := [], NONE, 0, 0, DONE;
      rxMsg, rxPos, rxBuf, txFifo, rxFifo, ier := NONE, 0, [], [], [], {};
      pushed, received := [], [];
    }

    predicate Current()
      reads this
    {
      0 <= txMsg < |msgs| && txPos <= Len(msgs[txMsg]) && nmsgs == |msgs| - txMsg
    }

    /** xiic_tx_space */
    function TxSpace(): nat
      requires Current()
      reads this
    {
      Len(msgs[txMsg]) - txPos
    }

    /** The read under way, if there is one, is the current and last message; what has been stored of
        it and what is still in the FIFO are the bytes received. */
    ghost predicate RxOk()
      reads this
    {
      && |rxBuf| == rxPos
      && (rxMsg == NONE || (rxMsg == txMsg == |msgs| - 1 && Current() && msgs[rxMsg].Read? && rxPos < Len(msgs[rxMsg])
                            && txPos == Len(msgs[rxMsg]) && rxBuf + rxFifo == received))
    }

    /** No read has been started yet. */
    ghost predicate NoRead()
      reads this
    {
      rxMsg == NONE && rxPos == 0 && rxBuf == [] && rxFifo == [] && received == []
    }

    /** The final read, if the transfer has one, has been completed. */
    ghost predicate ReadComplete()
      reads this
    {
      msgs != [] && msgs[|msgs| - 1].Read? ==> |rxBuf| == msgs[|msgs| - 1].len && rxBuf <= received
    }

    /** The transfer up to now: what has been pushed is what the position in the messages says, and as
        long as a message is being written the interrupt that goes on with it is enabled. */
    ghost predicate UnderWay()
      reads this
    {
      && Current() && state == START && pushed == Sent(msgs, txMsg, txPos)
      && BusNotBusy in ier
      && if msgs[txMsg].Write? then TxEmpty in ier && NoRead()
         else txPos == Len(msgs[txMsg]) && if rxMsg == NONE then ReadComplete() else RxFull in ier
    }

    /** What is left to do: to push, to read, to start. */
    ghost function Left(): nat
      requires Current() && RxOk()
      reads this
    {
      Work(msgs, txMsg + 1) + TxSpace() + if rxMsg == NONE then 0 else Len(msgs[rxMsg]) - rxPos
    }

    /** Nothing has to be pushed during a read. */
    lemma ReadIsLast()
      requires Inv() && txMsg != NONE && msgs[txMsg].Read?
      ensures nmsgs == 1 && TxSpace() == 0
    {
      hide Sent, Stream;
    }

    lemma NothingLeft()
      requires Current() && RxOk()
      ensures Left() == 0 <==> nmsgs == 1 && rxMsg == NONE && TxSpace() == 0
    {
    }

    /** What every step of the driver and of the controller keeps. */
    ghost predicate Inv()
      reads this
    {
      && |txFifo| <= TX_FIFO_DEPTH && OneFinalRead(msgs) && RxOk()
      && (txMsg != NONE ==> UnderWay())
      && (txMsg == NONE ==> rxMsg == NONE && pushed <= Stream(msgs))
      && (state == DONE ==> pushed == Stream(msgs) && ReadComplete())
    }

    // ---- the controller ---------------------------------------------------------------------------

    /** The controller at work: it takes words from the transmit FIFO and, during a read, puts bytes
        into the receive FIFO. It may do so before every access to one of its registers. */
    method Hardware()
      modifies `txFifo, `rxFifo, `received
      ensures |txFifo| <= |old(txFifo)| && txFifo == old(txFifo)[|old(txFifo)| - |txFifo|..]
      ensures old(rxFifo) <= rxFifo && received == old(received) + rxFifo[|old(rxFifo)|..]
      ensures rxMsg == NONE ==> rxFifo == old(rxFifo) && received == old(received)
    {
      var k: nat :| k <= |txFifo|;
      txFifo := txFifo[k..];
      if rxMsg != NONE {
        var bytes: seq<byte> := *;
        rxFifo := rxFifo + bytes;
        received := received + bytes;
      }
    }

    /** xiic_tx_fifo_space: the occupancy register counts from 0 and cannot tell an empty FIFO from one
        with a single word. */
    method TxFifoSpace() returns (space: nat)
      requires |txFifo| <= TX_FIFO_DEPTH && RxOk()
      modifies `txFifo, `rxFifo, `received
      ensures |txFifo| <= |old(txFifo)| && RxOk() && (old(NoRead()) ==> NoRead()) && old(received) <= received
      ensures space == TX_FIFO_DEPTH - (if txFifo == [] then 1 else |txFifo|)
      ensures old(Inv()) ==> Inv()
      ensures Current() ==> Left() == old(Left())
    {
      hide Sent, Stream, OneFinalRead, Work;
      Hardware();
      var tfo := if txFifo == [] then 0 else |txFifo| - 1;
      space := TX_FIFO_DEPTH - tfo - 1;
    }

    /** A word into the transmit register. */
    method PushWord(w: nat)
      requires |txFifo| < TX_FIFO_DEPTH && RxOk()
      modifies `txFifo, `rxFifo, `received, `pushed
      ensures |txFifo| <= |old(txFifo)| + 1 && pushed == old(pushed) + [w]
      ensures RxOk() && (old(NoRead()) ==> NoRead()) && old(received) <= received
    {
      Hardware();
      txFifo := txFifo + [w];
      pushed := pushed + [w];
    }

    /** xiic_irq_clr_en */
    method IrqClrEn(mask: set<Irq>)
      modifies `ier
      ensures ier == old(ier) + mask
    {
      ier := ier + mask;
    }

    /** xiic_irq_dis */
    method IrqDis(mask: set<Irq>)
      modifies `ier
      ensures ier == old(ier) - mask
    {
      ier := ier - mask;
    }

    /** xiic_clear_rx_fifo */
    method ClearRxFifo()
      modifies `rxFifo
      ensures rxFifo == []
    {
      while rxFifo != []
        decreases |rxFifo|
      {
        rxFifo := rxFifo[1..];
      }
    }

    /** xiic_reinit: the reset empties the transmit FIFO and disables all interrupts. */
    method Reinit()
      modifies `txFifo, `rxFifo, `ier
      ensures txFifo == [] && rxFifo == [] && ier == {ArbLost}
    {
      ier := {};
      txFifo := [];
      ClearRxFifo();
      IrqClrEn({ArbLost});
    }

    // ---- sending ------------------------------------------------------------------------------------

    /** xiic_fill_tx_fifo: as much of the current message as fits. */
    method FillTxFifo()
      requires Current() && msgs[txMsg].Write? && NoRead()
      requires |txFifo| <= TX_FIFO_DEPTH && pushed == Sent(msgs, txMsg, txPos)
      modifies `txFifo, `rxFifo, `received, `pushed, `txPos
      ensures Current() && NoRead()
      ensures |txFifo| <= TX_FIFO_DEPTH && pushed == Sent(msgs, txMsg, txPos)
      ensures old(txPos) <= txPos && old(pushed) <= pushed && |txFifo| <= |old(txFifo)| + txPos - old(txPos)
      ensures TxSpace() == 0 || txPos - old(txPos) >= TX_FIFO_DEPTH - (if old(txFifo) == [] then 1 else |old(txFifo)|)
    {
      hide Sent, Stream, WordsOf;
      var fifoSpace := TxFifoSpace();
      var len: nat := if TxSpace() > fifoSpace then fifoSpace else TxSpace();
      ghost var all := len;
      while len > 0
        invariant Current() && NoRead() && len <= TxSpace() && |txFifo| + len <= TX_FIFO_DEPTH
        invariant txPos == old(txPos) + all - len && len <= all && old(pushed) <= pushed
        invariant |txFifo| <= |old(txFifo)| + all - len
        invariant pushed == Sent(msgs, txMsg, txPos)
        decreases len
      {
        var data: nat := msgs[txMsg].data[txPos];
        SentMore(msgs, txMsg, txPos);
        txPos := txPos + 1;
        if TxSpace() == 0 && nmsgs == 1 {
          data := data + DYN_STOP;
        }
        PushWord(data);
        len := len - 1;
      }
    }

    /** xiic_start_send */
    method StartSend()
      requires Current() && msgs[txMsg].Write? && txPos == 0 && NoRead()
      requires |txFifo| <= TX_FIFO_DEPTH - 2 && pushed == WordsOf(msgs, txMsg)
      modifies `txFifo, `rxFifo, `received, `pushed, `txPos, `ier
      ensures Current() && NoRead() && old(pushed) <= pushed
      ensures |txFifo| <= TX_FIFO_DEPTH && pushed == Sent(msgs, txMsg, txPos)
      ensures ier == old(ier) + {TxEmpty, TxError, BusNotBusy}
    {
      hide WordsOf, Sent;
      SentNothing(msgs, txMsg);
      var msg := msgs[txMsg];
      if !msg.noStart {
        var data := 2 * msg.addr + DYN_START;
        if nmsgs == 1 && Len(msg) == 0 {
          data := data + DYN_STOP;
        }
        PushWord(data);
      }
      FillTxFifo();
      IrqClrEn({TxEmpty, TxError, BusNotBusy});
    }

    /** xiic_start_recv */
    method StartRecv()
      requires Current() && msgs[txMsg].Read? && txMsg == |msgs| - 1 && NoRead()
      requires |txFifo| <= TX_FIFO_DEPTH - 2 && pushed == WordsOf(msgs, txMsg)
      modifies `txFifo, `rxFifo, `received, `pushed, `txPos, `rxMsg, `ier
      ensures Current() && RxOk() && rxMsg == txMsg && txPos == Len(msgs[txMsg]) && old(pushed) <= pushed
      ensures |txFifo| <= TX_FIFO_DEPTH && pushed == Sent(msgs, txMsg, txPos)
      ensures ier == old(ier) + {RxFull, TxError, BusNotBusy}
    {
      hide WordsOf, Sent, StartWords, Stream, MsgWords, Work;
      SentRead(msgs, txMsg);
      var msg := msgs[txMsg];
      rxMsg := txMsg;
      txPos := msg.len;
      IrqClrEn({RxFull, TxError});
      PushReadStart(msg);
      IrqClrEn({BusNotBusy});
      PushWord(msg.len + (if nmsgs == 1 then DYN_STOP else 0));
      if nmsgs == 1 {
        IrqClrEn({BusNotBusy});
      }
    }

    /** The address of a read goes in front of its count, unless the message goes on without a start. */
    method PushReadStart(msg: Msg)
      requires msg.Read? && |txFifo| < TX_FIFO_DEPTH && RxOk()
      modifies `txFifo, `rxFifo, `received, `pushed
      ensures |txFifo| <= |old(txFifo)| + 1 && RxOk()
      ensures forall last :: pushed == old(pushed) + StartWords(msg, last)
    {
      if !msg.noStart {
        PushWord(2 * msg.addr + READ_OPERATION + DYN_START);
      }
    }

    /** The current message is started; all of what fits of it is pushed. */
    method StartMessage()
      requires Current() && txPos == 0 && NoRead() && OneFinalRead(msgs) && state == START
      requires |txFifo| <= TX_FIFO_DEPTH - 2 && pushed == WordsOf(msgs, txMsg)
      modifies `txFifo, `rxFifo, `received, `pushed, `txPos, `rxMsg, `ier
      ensures Inv() && old(pushed) <= pushed && Left() < Work(msgs, txMsg)
    {
      hide Sent, WordsOf, Stream, MsgWords;
      if msgs[txMsg].Read? {
        StartRecv();
      } else {
        StartSend();
      }
    }

    /** On to the next message, once the current one has been pushed. */
    method NextMessage()
      requires Inv() && txMsg != NONE && nmsgs > 1 && TxSpace() == 0
      modifies `nmsgs, `txMsg, `txPos
      ensures Current() && txPos == 0 && nmsgs == old(nmsgs) - 1 && NoRead() && OneFinalRead(msgs) && state == START
      ensures pushed == WordsOf(msgs, txMsg) && Work(msgs, txMsg) == old(Left())
    {
      hide Sent, Stream, WordsOf;
      SentAll(msgs, txMsg);
      nmsgs := nmsgs - 1;
      txMsg := txMsg + 1;
      txPos := 0;
    }

    lemma NoReadYet()
      requires rxMsg == NONE && rxPos == 0 && rxBuf == [] && received == [] && rxFifo == []
      ensures NoRead() && RxOk()
    {
    }

    lemma InvParts()
      requires Inv()
      ensures |txFifo| <= TX_FIFO_DEPTH && RxOk() && OneFinalRead(msgs)
      ensures txMsg != NONE ==> Current() && state == START
    {
    }

    /** The half-empty interrupt is enabled on top of the others. */
    method EnableTxHalf()
      requires Inv()
      modifies `ier
      ensures Inv() && (Current() ==> Left() == old(Left()))
    {
      hide Sent, Stream, WordsOf, Work;
      IrqClrEn({TxHalf});
    }

    /** __xiic_start_xfer: messages are started as long as the FIFO has room for two words and the one
        before has been pushed completely. */
    method StartMessages()
      requires 0 <= txMsg < |msgs| && nmsgs == |msgs| - txMsg && OneFinalRead(msgs)
      requires rxMsg == NONE && rxBuf == [] && received == [] && rxFifo == []
      requires |txFifo| <= TX_FIFO_DEPTH - 2 && pushed == WordsOf(msgs, txMsg)
      modifies this
      ensures msgs == old(msgs) && txMsg != NONE && Inv() && state == START && old(pushed) <= pushed
      ensures Current() && Left() < Work(msgs, old(txMsg))
    {
      hide Sent, WordsOf, Stream, MsgWords, OneFinalRead, Inv, NoRead, RxOk, Left, Work;
      var first := true;
      rxPos, txPos, state := 0, 0, START;
      NoReadYet();
      var fifoSpace := TxFifoSpace();
      while fifoSpace >= 2 && (first || nmsgs > 1)
        invariant msgs == old(msgs) && OneFinalRead(msgs) && Current() && state == START && old(pushed) <= pushed && RxOk()
        invariant if first then txMsg == old(txMsg) else Left() < Work(msgs, old(txMsg))
        invariant |txFifo| <= TX_FIFO_DEPTH && (fifoSpace >= 2 ==> |txFifo| <= TX_FIFO_DEPTH - 2)
        invariant first ==> NoRead() && pushed == WordsOf(msgs, txMsg) && txPos == 0 && fifoSpace >= 2
        invariant !first ==> Inv() && TxSpace() == 0 && msgs[txMsg].Write?
        decreases nmsgs, first
      {
        if !first {
          NextMessage();
        } else {
          first := false;
        }
        StartMessage();
        InvParts();
        if msgs[txMsg].Read? {
          return;
        }
        if TxSpace() != 0 {
          break;
        }
        fifoSpace := TxFifoSpace();
      }
      if nmsgs > 1 || TxSpace() != 0 {
        EnableTxHalf();
      }
    }

    // ---- interrupts ------------------------------------------------------------------------------------

    /** xiic_wakeup */
    method Wakeup(code: State)
      modifies `txMsg, `rxMsg, `nmsgs, `state
      ensures txMsg == NONE && rxMsg == NONE && nmsgs == 0 && state == code
    {
      txMsg := NONE;
      rxMsg := NONE;
      nmsgs := 0;
      state := code;
    }

    /** A transfer given up leaves a prefix of its stream behind. */
    lemma PrefixPushed()
      requires Inv()
      ensures pushed <= Stream(msgs)
    {
      hide Sent, Stream;
      if txMsg != NONE {
        SentPrefix(msgs, txMsg, txPos);
      }
    }

    /** Arbitration lost, or a transmit error that does not mark the end of a read. */
    method ErrorReset()
      requires Inv()
      modifies `txFifo, `rxFifo, `ier, `txMsg, `rxMsg, `nmsgs, `state
      ensures Inv() && txMsg == NONE
      ensures if old(txMsg) == NONE then state == old(state) else state == ERROR
    {
      hide Sent, Stream;
      PrefixPushed();
      Reinit();
      if rxMsg != NONE {
        Wakeup(ERROR);
      }
      if txMsg != NONE {
        Wakeup(ERROR);
      }
    }

    /** xiic_read_rx: the bytes in the FIFO, as far as the read has asked for them. */
    method ReadRx()
      requires RxOk() && rxMsg != NONE && rxFifo != []
      modifies `rxFifo, `received, `rxPos, `rxBuf, `txFifo
      ensures |rxBuf| == rxPos <= Len(msgs[rxMsg]) && rxBuf + rxFifo == received
      ensures |txFifo| <= |old(txFifo)| && old(rxBuf) <= rxBuf
      ensures rxPos == Len(msgs[rxMsg]) || rxPos >= old(rxPos) + |old(rxFifo)|
    {
      Hardware();
      var bytesInFifo := |rxFifo|;
      var space := Len(msgs[rxMsg]) - rxPos;
      if bytesInFifo > space {
        bytesInFifo := space;
      }
      var i := 0;
      while i < bytesInFifo
        invariant i <= bytesInFifo <= i + |rxFifo| && |rxBuf| == rxPos && rxPos + (bytesInFifo - i) <= Len(msgs[rxMsg])
        invariant rxBuf + rxFifo == received && |txFifo| <= |old(txFifo)| && old(rxBuf) <= rxBuf
        invariant rxPos == old(rxPos) + i
      {
        ghost var b := rxBuf + rxFifo;
        rxBuf := rxBuf + [rxFifo[0]];
        rxFifo := rxFifo[1..];
        rxPos := rxPos + 1;
        assert rxBuf + rxFifo == b;
        i := i + 1;
      }
    }

    /** The receive interrupt. The read is the last message, so nothing is started after it. */
    method ProcessRx()
      requires Inv() && rxMsg != NONE && rxFifo != []
      modifies this
      ensures Inv() && msgs == old(msgs) && old(rxBuf) <= rxBuf && |rxBuf| > |old(rxBuf)|
      ensures rxMsg == NONE <==> |rxBuf| == Len(msgs[old(rxMsg)])
      ensures pushed == old(pushed) && txMsg == old(txMsg) && Current() && RxOk() && Left() < old(Left())
    {
      hide Sent, Stream, Work;
      ReadRx();
      if Len(msgs[rxMsg]) - rxPos == 0 {
        rxMsg := NONE;
      }
    }

    /** When the last message has been pushed, so has the whole stream. */
    lemma AllPushed()
      requires txMsg != NONE && Current() && pushed == Sent(msgs, txMsg, txPos) && nmsgs == 1 && TxSpace() == 0
      ensures pushed == Stream(msgs)
    {
      SentAll(msgs, txMsg);
      assert Stream(msgs) == WordsOf(msgs, |msgs|);
    }

    /** The bus-not-busy interrupt: the transfer is done exactly when everything has been pushed and, if
        it ends in a read, received. */
    method ProcessBusNotBusy()
      requires Inv() && txMsg != NONE
      modifies this
      ensures Inv() && txMsg == NONE && msgs == old(msgs) && pushed == old(pushed)
      ensures state == DONE <==> old(nmsgs == 1 && rxMsg == NONE && TxSpace() == 0)
      ensures state == DONE <==> old(Left()) == 0
    {
      hide Sent, Work;
      NothingLeft();
      IrqDis({BusNotBusy});
      if nmsgs == 1 && rxMsg == NONE && TxSpace() == 0 {
        AllPushed();
        Wakeup(DONE);
      } else {
        SentPrefix(msgs, txMsg, txPos);
        Wakeup(ERROR);
      }
    }

    /** The messages after one that has been pushed. */
    method StartNext()
      requires Inv() && txMsg != NONE && nmsgs > 1 && TxSpace() == 0 && |txFifo| <= TX_FIFO_DEPTH - 2
      modifies this
      ensures Inv() && msgs == old(msgs) && old(pushed) <= pushed && txMsg != NONE && Current() && RxOk()
      ensures Left() < old(Left())
    {
      hide Sent, Stream, WordsOf, Work;
      SentAll(msgs, txMsg);
      NextWork(msgs, txMsg);
      nmsgs := nmsgs - 1;
      txMsg := txMsg + 1;
      StartMessages();
    }

    /** The transmit interrupts. */
    method ProcessTx()
      requires Inv() && txMsg != NONE
      modifies this
      ensures Inv() && msgs == old(msgs) && old(pushed) <= pushed && txMsg != NONE && Current() && RxOk()
      ensures Left() <= old(Left())
      ensures old(msgs[txMsg].Write? && txFifo == [] && Left() > 0) ==> Left() < old(Left())
    {
      hide Sent, Stream, WordsOf, Work;
      NothingLeft();
      if msgs[txMsg].Write? {
        FillTxFifo();
      } else {
        // A read has been pushed completely: xiic_fill_tx_fifo looks at the FIFO and pushes nothing.
        var space := TxFifoSpace();
      }
      var fifoSpace := TxFifoSpace();
      if TxSpace() == 0 && fifoSpace >= 2 {
        if nmsgs > 1 {
          StartNext();
        } else {
          IrqDis({TxHalf});
        }
      } else if TxSpace() == 0 && nmsgs == 1 {
        IrqDis({TxHalf});
      }
    }

    /** An interrupt that goes on with the transfer: the FIFO is empty and there is more to push, or there is
        something to read. */
    ghost predicate Moves(isr: set<Irq>)
      requires Inv() && txMsg != NONE
      reads this
    {
      || (TxEmpty in isr && RxFull !in isr && msgs[txMsg].Write? && txFifo == [] && Left() > 0)
      || (RxFull in isr && rxMsg != NONE)
    }

    /** The interrupts that a transfer waits for are enabled. */
    lemma WhatIsEnabled()
      requires Inv()
      ensures txMsg == NONE ==> rxMsg == NONE
      ensures txMsg != NONE ==> Current() && RxOk() && BusNotBusy in ier
      ensures txMsg != NONE && msgs[txMsg].Write? ==> TxEmpty in ier && rxMsg == NONE
      ensures rxMsg != NONE ==> RxFull in ier && msgs[txMsg].Read?
    {
      hide Sent, Stream, OneFinalRead;
    }

    /** xiic_process: the interrupt thread, for any set of raised interrupts. The controller raises the
        receive interrupt only when there is something to read. */
    method Process(isr: set<Irq>)
      requires Inv() && (RxFull in isr && rxMsg != NONE ==> rxFifo != [])
      modifies this
      ensures Inv() && msgs == old(msgs) && old(pushed) <= pushed
      ensures Harmless(isr) && old(txMsg) != NONE ==>
        txMsg != NONE && Current() && RxOk() && Left() <= old(Left()) && (old(Moves(isr)) ==> Left() < old(Left()))
      ensures isr == {BusNotBusy} && old(txMsg != NONE && Left() == 0) ==> state == DONE
    {
      hide Inv, Sent, Stream, Work, Left, RxOk;
      WhatIsEnabled();
      var pend := isr * ier;
      if ArbLost in pend || (TxError in pend && RxFull !in pend) {
        ErrorReset();
        InvRx();
      }
      if RxFull in pend {
        if rxMsg == NONE {
          ClearIdle();
          return;
        }
        ProcessRx();
      }
      if BusNotBusy in pend {
        if txMsg == NONE {
          DisableIdle();
          return;
        }
        ProcessBusNotBusy();
      }
      if TxEmpty in pend || TxHalf in pend {
        if txMsg == NONE {
          return;
        }
        ProcessTx();
      }
    }

    lemma InvRx()
      requires Inv() && txMsg == NONE
      ensures rxMsg == NONE
    {
    }

    /** An unexpected receive interrupt. */
    method ClearIdle()
      requires Inv() && rxMsg == NONE
      modifies `rxFifo
      ensures Inv() && (txMsg != NONE ==> Current() && RxOk() && Left() == old(Left()))
    {
      hide Sent, Stream, Work;
      ClearRxFifo();
    }

    method DisableIdle()
      requires Inv() && txMsg == NONE
      modifies `ier
      ensures Inv()
    {
      hide Sent, Stream;
      IrqDis({BusNotBusy});
    }

    /** The controller goes on by itself. */
    method GoOn()
      requires Inv()
      modifies `txFifo, `rxFifo, `received
      ensures Inv()
    {
      hide Sent, Stream;
      Hardware();
    }

    /** The controller has taken all words from its FIFO. */
    method Drained()
      requires Inv() && txMsg != NONE
      modifies `txFifo
      ensures Inv() && txFifo == [] && Left() == old(Left())
    {
      hide Sent, Stream, Work;
      txFifo := [];
    }

    /** The controller has received some bytes of a read. */
    method Delivered(bytes: seq<byte>)
      requires Inv() && rxMsg != NONE && bytes != []
      modifies `rxFifo, `received
      ensures Inv() && rxFifo != [] && Left() == old(Left())
    {
      hide Sent, Stream, Work;
      rxFifo := rxFifo + bytes;
      received := received + bytes;
      assert rxBuf + rxFifo == received;
    }

    lemma Outcome()
      requires Inv()
      ensures |txFifo| <= TX_FIFO_DEPTH
      ensures state == DONE ==> pushed == Stream(msgs) && ReadComplete()
      ensures state == START && txMsg != NONE && pushed != Stream(msgs) ==> TxEmpty in ier
    {
      hide WordsOf;
      if txMsg != NONE && msgs[txMsg].Read? {
        SentAll(msgs, txMsg);
      }
    }

    // ---- transfers ---------------------------------------------------------------------------------------

    /** xiic_xfer, up to the wait, once the bus is free. */
    method StartTransfer(transfer: seq<Msg>)
      requires txMsg == NONE && transfer != [] && OneFinalRead(transfer)
      modifies this
      ensures Inv() && msgs == transfer && txMsg != NONE && Left() < Work(transfer, 0)
    {
      hide Inv, Work;
      msgs, pushed, received, rxBuf, rxPos, rxMsg := transfer, [], [], [], 0, NONE;
      txMsg := 0;
      nmsgs := |transfer|;
      Reinit();
      StartMessages();
    }

    /** The wait of xiic_xfer has timed out: the driver forgets the transfer. */
    method Expire()
      requires Inv()
      modifies `txMsg, `rxMsg, `nmsgs
      ensures Inv() && txMsg == NONE && state == old(state)
    {
      hide Sent, Stream;
      PrefixPushed();
      txMsg := NONE;
      rxMsg := NONE;
      nmsgs := 0;
    }
  }

  // ---- runs --------------------------------------------------------------------------------------------------

  /** Interrupts that end no transfer. */
  predicate Harmless(isr: set<Irq>) {
    ArbLost !in isr && TxError !in isr && BusNotBusy !in isr
  }

  /** What can happen to a transfer: interrupts, the controller going on by itself, the timeout. */
  datatype Event = Interrupt(isr: set<Irq>) | Idle | Timeout

  /** Any run of a transfer: whatever happens in whatever order, the words written are a prefix of the
      stream that the messages stand for, the FIFO never overflows, and DONE means that the whole
      stream has been written and the final read, if there is one, has been completed. */
  method Run(i2c: Driver, transfer: seq<Msg>, events: seq<Event>)
    requires i2c.txMsg == NONE && transfer != [] && OneFinalRead(transfer)
    modifies i2c
    ensures i2c.msgs == transfer && i2c.pushed <= Stream(transfer) && |i2c.txFifo| <= TX_FIFO_DEPTH
    ensures i2c.state == DONE ==> i2c.pushed == Stream(transfer) && i2c.ReadComplete()
    ensures i2c.state == DONE && ReadsStart(transfer, |transfer|) ==> Hear(i2c.pushed, false) == Said(transfer, |transfer|)
    ensures i2c.state == START && i2c.txMsg != NONE && i2c.pushed != Stream(transfer) ==> TxEmpty in i2c.ier
  {
    StreamIs(transfer);
    hide Driver.Inv, Stream, Sent, Hear, Said;
    i2c.StartTransfer(transfer);
    for k := 0 to |events|
      invariant i2c.Inv() && i2c.msgs == transfer
    {
      match events[k] {
        case Interrupt(isr) =>
          var raised := if i2c.rxFifo == [] then isr - {RxFull} else isr;
          i2c.Process(raised);
        case Idle =>
          i2c.GoOn();
        case Timeout =>
          i2c.Expire();
      }
    }
    i2c.PrefixPushed();
    i2c.Outcome();
  }

  /** A transfer on which nothing goes wrong is completed: as long as the controller drains its FIFO and says so,
      or delivers bytes of the read and says so, with any harmless interrupts in between, everything is pushed and
      read after less steps than there are messages and bytes; when the bus is then free again, that is DONE. */
  method Complete(i2c: Driver, transfer: seq<Msg>, between: seq<seq<set<Irq>>>, chunks: seq<seq<byte>>) returns (steps: nat)
    requires i2c.txMsg == NONE && transfer != [] && OneFinalRead(transfer)
    requires forall n, k :: 0 <= n < |between| && 0 <= k < |between[n]| ==> Harmless(between[n][k])
    modifies i2c
    ensures i2c.state == DONE && steps < Work(transfer, 0)
    ensures i2c.msgs == transfer && i2c.pushed == Stream(transfer) && i2c.ReadComplete()
    ensures ReadsStart(transfer, |transfer|) ==> Hear(i2c.pushed, false) == Said(transfer, |transfer|)
  {
    StreamIs(transfer);
    hide Driver.Inv, Stream, Sent, Work, Driver.Left, Driver.RxOk, Driver.ReadComplete;
    i2c.StartTransfer(transfer);
    i2c.WhatIsEnabled();
    steps := 0;
    while i2c.nmsgs > 1 || i2c.TxSpace() > 0 || i2c.rxMsg != NONE
      invariant i2c.Inv() && i2c.msgs == transfer && i2c.txMsg != NONE && i2c.Current() && i2c.RxOk()
      invariant steps + i2c.Left() < Work(transfer, 0)
      decreases i2c.Left()
    {
      i2c.WhatIsEnabled();
      i2c.NothingLeft();
      if i2c.msgs[i2c.txMsg].Write? {
        i2c.Drained();
        i2c.Process({TxEmpty});
      } else {
        i2c.ReadIsLast();
        i2c.Delivered(if steps < |chunks| && chunks[steps] != [] then chunks[steps] else [0]);
        i2c.Process({RxFull});
      }
      Disturb(i2c, if steps < |between| then between[steps] else []);
      steps := steps + 1;
    }
    i2c.NothingLeft();
    i2c.Process({BusNotBusy});
    i2c.Outcome();
  }

  /** Any harmless interrupts, one after the other. */
  method Disturb(i2c: Driver, isrs: seq<set<Irq>>)
    requires i2c.Inv() && i2c.txMsg != NONE && forall k :: 0 <= k < |isrs| ==> Harmless(isrs[k])
    modifies i2c
    ensures i2c.Inv() && i2c.msgs == old(i2c.msgs) && i2c.txMsg != NONE && i2c.Current() && i2c.RxOk() && i2c.Left() <= old(i2c.Left())
  {
    hide Driver.Inv, Stream, Sent, Work, Driver.Left, Driver.RxOk, Harmless;
    i2c.WhatIsEnabled();
    for k := 0 to |isrs|
      invariant i2c.Inv() && i2c.msgs == old(i2c.msgs) && i2c.txMsg != NONE && i2c.Current() && i2c.RxOk() && i2c.Left() <= old(i2c.Left())
    {
      var raised := if i2c.rxFifo == [] then isrs[k] - {RxFull} else isrs[k];
      StillHarmless(isrs[k]);
      i2c.Process(raised);
    }
  }

  lemma StillHarmless(isr: set<Irq>)
    requires Harmless(isr)
    ensures Harmless(isr - {RxFull})
  {
  }

  /** A message that has only been started. */
  lemma SentNothing(msgs: seq<Msg>, i: nat)
    requires i < |msgs| && msgs[i].Write?
    ensures Sent(msgs, i, 0) == WordsOf(msgs, i) + StartWords(msgs[i], i == |msgs| - 1)
  {
    assert DataWords(msgs[i].data, i == |msgs| - 1)[..0] == [];
  }

  lemma SentRead(msgs: seq<Msg>, i: nat)
    requires i < |msgs| && msgs[i].Read?
    ensures Sent(msgs, i, Len(msgs[i])) == WordsOf(msgs, i) + StartWords(msgs[i], i == |msgs| - 1) + BodyWords(msgs[i], i == |msgs| - 1)
  {
  }

}
