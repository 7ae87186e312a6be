/** The sending application of examples/tcp/tcp-large-transfer.cc. */
module Stream {
  import opened Basics

  const TOTAL_TX_BYTES: nat := 2000000
  const WRITE_SIZE: nat := 1040

  /** The k-th byte of the stream: the letters a to z over and over. */
  function Letter(k: nat): nat {
    97 + k % 26
  }

  /** The answers of the network stack until it calls back again: arbitrary and
      without end.  spaces are those of GetTxAvailable, sends those of Send. */
  datatype Net = Net(spaces: nat -> nat, sends: nat -> int)

  /** The sending socket.  accepted records the bytes taken over by Send, closes
      the calls of Close, and refused whether the last answer was that there is
      no space or that a send failed. */
  class Socket {
    var net: Net
    var asked: nat
    var answered: nat
    var accepted: seq<nat>
    var closes: nat
    var refused: bool

    constructor (net: Net)
      ensures this.net == net && asked == 0 && answered == 0 && accepted == [] && closes == 0
    {
      this.net, asked, answered, accepted, closes, refused := net, 0, 0, [], 0, false;
    }

    /** The network stack calls back. */
    method Wake(net: Net)
      modifies this`net, this`asked, this`answered
      ensures this.net == net && asked == 0 && answered == 0
    {
      this.net, asked, answered := net, 0, 0;
    }

    /** Free space in the send buffer. */
    method GetTxAvailable() returns (space: nat)
      modifies this`asked, this`refused
      ensures space == net.spaces(old(asked)) && asked == old(asked) + 1 && (refused <==> space == 0)
    {
      space := net.spaces(asked);
      asked := asked + 1;
      refused := space == 0;
    }

    /** Send n bytes of the buffer from the given offset on: a failure, or any
        part of them is accepted. */
    method Send(buffer: array<nat>, offset: nat, n: nat) returns (sent: int)
      requires offset + n <= buffer.Length
      modifies this`answered, this`accepted, this`refused
      ensures answered == old(answered) + 1 && (refused <==> sent < 0)
      ensures var answer := net.sends(old(answered)); sent == if answer > n then n else answer
      ensures accepted == old(accepted) + if sent < 0 then [] else buffer[offset..offset + sent]
    {
      var answer := net.sends(answered);
      sent := if answer > n then n else answer;
      answered := answered + 1;
      refused := sent < 0;
      if sent >= 0 {
        accepted := accepted + buffer[offset..offset + sent];
      }
    }

    method Close()
      modifies this`closes
      ensures closes == old(closes) + 1
    {
      closes := closes + 1;
    }
  }

  // ---------- one callback as a function of the answers ----------

  /** What the socket takes in the i-th turn of the loop. */
  function Accepts(net: Net, i: nat, sofar: nat): nat
    requires sofar <= TOTAL_TX_BYTES
  {
    var n := Min(Min(WRITE_SIZE - sofar % WRITE_SIZE, TOTAL_TX_BYTES - sofar), net.spaces(2 * i + 1));
    if net.sends(i) < 0 then 0 else Min(net.sends(i), n)
  }

  /** The bytes accepted in all before the i-th turn. */
  function BytesAt(net: Net, start: nat, i: nat): (r: nat)
    requires start <= TOTAL_TX_BYTES
    ensures r <= TOTAL_TX_BYTES
  {
    if i == 0 then start else
    var sofar := BytesAt(net, start, i - 1);
    sofar + Accepts(net, i - 1, sofar)
  }

  /** The i-th turn is the last one: the stream is complete, there is no space,
      or the send fails. */
  predicate StopsAt(net: Net, start: nat, i: nat)
    requires start <= TOTAL_TX_BYTES
  {
    BytesAt(net, start, i) == TOTAL_TX_BYTES || net.spaces(2 * i) == 0 || net.sends(i) < 0
  }

  /** The loop of the callback comes to an end. */
  ghost predicate Ends(net: Net, start: nat)
    requires start <= TOTAL_TX_BYTES
  {
    exists i :: StopsAt(net, start, i)
  }

  /** No turn before the i-th one is the last. */
  ghost predicate GoesOnTo(net: Net, start: nat, i: nat)
    requires start <= TOTAL_TX_BYTES
  {
    forall j :: 0 <= j < i ==> !StopsAt(net, start, j)
  }

  ghost predicate EndsAt(net: Net, start: nat, i: nat)
    requires start <= TOTAL_TX_BYTES
  {
    StopsAt(net, start, i) && GoesOnTo(net, start, i)
  }

  // ---------- when the loop ends ----------

  lemma {:induction false} BytesGrow(net: Net, start: nat, i: nat, j: nat)
    requires start <= TOTAL_TX_BYTES && i <= j
    ensures BytesAt(net, start, i) <= BytesAt(net, start, j)
    decreases j
  {
    if i < j {
      BytesGrow(net, start, i, j - 1);
    }
  }

  /** From some turn on nothing more is accepted. */
  lemma {:induction false} Settles(net: Net, start: nat, i: nat) returns (from: nat)
    requires start <= TOTAL_TX_BYTES
    ensures forall j :: j >= from ==> Accepts(net, j, BytesAt(net, start, j)) == 0
    decreases TOTAL_TX_BYTES - BytesAt(net, start, i)
  {
    if j :| j >= i && Accepts(net, j, BytesAt(net, start, j)) > 0 {
      BytesGrow(net, start, i, j);
      from := Settles(net, start, j + 1);
    } else {
      from := i;
    }
  }

  /** From this turn on the socket always has space and never accepts a byte of
      an incomplete stream. */
  ghost predicate HangsFrom(net: Net, start: nat, from: nat)
    requires start <= TOTAL_TX_BYTES
  {
    && BytesAt(net, start, from) < TOTAL_TX_BYTES
    && forall i :: i >= from ==> net.spaces(2 * i) > 0 && net.sends(i) >= 0
                                 && Accepts(net, i, BytesAt(net, start, from)) == 0
  }

  lemma {:induction false} StandsStill(net: Net, start: nat, from: nat, i: nat)
    requires start <= TOTAL_TX_BYTES && HangsFrom(net, start, from) && from <= i
    ensures BytesAt(net, start, i) == BytesAt(net, start, from)
    decreases i
  {
    if from < i {
      StandsStill(net, start, from, i - 1);
    }
  }

  /** The loop runs on for ever exactly when it gets past all earlier turns to
      one from which on the socket answers endlessly with space but takes
      nothing. */
  lemma EndsIff(net: Net, start: nat)
    requires start <= TOTAL_TX_BYTES
    ensures Ends(net, start) <==>
            !exists from: nat :: GoesOnTo(net, start, from) && HangsFrom(net, start, from)
  {
    if !Ends(net, start) {
      var from := Settles(net, start, 0);
      assert !StopsAt(net, start, from);
      forall i | i >= from ensures net.spaces(2 * i) > 0 && net.sends(i) >= 0
                                   && BytesAt(net, start, i) == BytesAt(net, start, from) {
        assert !StopsAt(net, start, i);
        StaysSettled(net, start, from, i);
      }
      assert HangsFrom(net, start, from);
    } else if from: nat :| GoesOnTo(net, start, from) && HangsFrom(net, start, from) {
      forall i: nat ensures !StopsAt(net, start, i) {
        if i >= from {
          StandsStill(net, start, from, i);
        }
      }
    }
  }

  lemma {:induction false} StaysSettled(net: Net, start: nat, from: nat, i: nat)
    requires start <= TOTAL_TX_BYTES && from <= i
    requires forall j :: j >= from ==> Accepts(net, j, BytesAt(net, start, j)) == 0
    ensures BytesAt(net, start, i) == BytesAt(net, start, from)
    decreases i
  {
    if from < i {
      StaysSettled(net, start, from, i - 1);
    }
  }

  /** The socket still has space when it is asked again, and no send is empty. */
  ghost predicate Cooperative(net: Net) {
    (forall i: nat :: net.spaces(2 * i) > 0 ==> net.spaces(2 * i + 1) > 0) && forall i: nat :: net.sends(i) != 0
  }

  lemma {:induction false} EveryTurnCounts(net: Net, start: nat, n: nat)
    requires start <= TOTAL_TX_BYTES && Cooperative(net) && GoesOnTo(net, start, n)
    ensures BytesAt(net, start, n) >= start + n
  {
    if n > 0 {
      EveryTurnCounts(net, start, n - 1);
      assert !StopsAt(net, start, n - 1) && net.spaces(2 * (n - 1) + 1) > 0;
    }
  }

  /** Then the loop ends within one turn per missing byte. */
  lemma EndsInTime(net: Net, start: nat)
    requires start <= TOTAL_TX_BYTES && Cooperative(net)
    ensures exists i :: 0 <= i <= TOTAL_TX_BYTES - start && StopsAt(net, start, i)
  {
    var n := TOTAL_TX_BYTES - start;
    if GoesOnTo(net, start, n) {
      EveryTurnCounts(net, start, n);
      assert StopsAt(net, start, n);
    }
  }

  /** A socket that always has space for a byte and never takes one keeps the
      callback busy for ever. */
  lemma EmptySendsNeverEnd(net: Net, start: nat)
    requires start < TOTAL_TX_BYTES && forall i :: net.spaces(i) == 1 && net.sends(i) == 0
    ensures !Ends(net, start)
  {
    assert forall i: nat :: net.spaces(2 * i) == 1;
    assert HangsFrom(net, start, 0);
    EndsIff(net, start);
  }

  // ---------- the application ----------

  class Sender {
    const data: array<nat>
    var currentTxBytes: nat

    /** Filling the transmit buffer. */
    constructor ()
      ensures fresh(data) && DataOk() && currentTxBytes == 0
    {
      data := new nat[WRITE_SIZE];
      currentTxBytes := 0;
      new;
      for i := 0 to WRITE_SIZE
        invariant data.Length == WRITE_SIZE && currentTxBytes == 0
        invariant forall k :: 0 <= k < i ==> data[k] == Letter(k)
      {
        data[i] := 97 + i % 26;
      }
    }

    ghost predicate DataOk()
      reads data
    {
      data.Length == WRITE_SIZE && forall k :: 0 <= k < WRITE_SIZE ==> data[k] == Letter(k)
    }

    /** Everything accepted so far is the right beginning of the stream, and the
        socket has been closed only if the stream is complete. */
    ghost predicate Intact(s: Socket)
      reads this, data, s
    {
      && DataOk() && |s.accepted| == currentTxBytes <= TOTAL_TX_BYTES
      && (forall k :: 0 <= k < |s.accepted| ==> s.accepted[k] == Letter(k))
      && (s.closes > 0 ==> currentTxBytes == TOTAL_TX_BYTES)
    }

    /** Taking up to n bytes from the buffer to the socket. */
    method WriteOnce(s: Socket, ghost i: nat) returns (ok: bool)
      requires Intact(s) && currentTxBytes < TOTAL_TX_BYTES && s.asked == 2 * i + 1 && s.answered == i
      modifies s`asked, s`answered, s`accepted, s`refused, this`currentTxBytes
      ensures Intact(s) && old(s.accepted) <= s.accepted && s.asked == 2 * i + 2 && s.answered == i + 1
      ensures currentTxBytes == old(currentTxBytes) + Accepts(s.net, i, old(currentTxBytes))
      ensures (ok <==> s.net.sends(i) >= 0) && (!ok ==> s.refused)
    {
      var left := TOTAL_TX_BYTES - currentTxBytes;
      var dataOffset := currentTxBytes % WRITE_SIZE;
      var space := s.GetTxAvailable();
      var toWrite := Min(Min(WRITE_SIZE - dataOffset, left), space);
      var amountSent := s.Send(data, dataOffset, toWrite);
      if amountSent < 0 {
        return false;
      }
      GoesOn(old(s.accepted), data[..], dataOffset, amountSent);
      currentTxBytes := currentTxBytes + amountSent;
      return true;
    }

    /** The loop has come to its n-th turn. */
    ghost predicate Writing(s: Socket, start: nat, n: nat)
      requires start <= TOTAL_TX_BYTES
      reads this, data, s
    {
      && Intact(s) && s.asked == 2 * n && s.answered == n
      && GoesOnTo(s.net, start, n) && currentTxBytes == BytesAt(s.net, start, n)
    }

    /** The loop has ended in its n-th turn. */
    ghost predicate Written(s: Socket, start: nat, n: nat)
      requires start <= TOTAL_TX_BYTES
      reads this, data, s
    {
      && Intact(s) && EndsAt(s.net, start, n) && currentTxBytes == BytesAt(s.net, start, n)
      && (currentTxBytes < TOTAL_TX_BYTES ==> s.refused)
    }

    /** One turn of the loop: its two conditions, then the body. */
    method Turn(s: Socket, ghost start: nat, ghost n: nat) returns (goesOn: bool, failed: bool)
      requires start <= TOTAL_TX_BYTES && Writing(s, start, n)
      modifies s`asked, s`answered, s`accepted, s`refused, this`currentTxBytes
      ensures old(s.accepted) <= s.accepted && (failed ==> currentTxBytes < TOTAL_TX_BYTES)
      ensures goesOn ==> !failed && Writing(s, start, n + 1)
      ensures !goesOn ==> Written(s, start, n)
    {
      goesOn, failed := false, false;
      if currentTxBytes >= TOTAL_TX_BYTES {
        return;
      }
      var space := s.GetTxAvailable();
      if space == 0 {
        return;
      }
      goesOn := WriteOnce(s, n);
      failed := !goesOn;
    }

    /** The callback: write until the buffer is full, a send fails or the stream
        is complete; close a complete stream.  It is called for answers with
        which the loop comes to an end, in turn n. */
    method WriteUntilBufferFull(s: Socket) returns (ghost n: nat)
      requires Intact(s) && s.asked == 0 && s.answered == 0 && Ends(s.net, currentTxBytes)
      modifies s, this`currentTxBytes
      ensures s.net == old(s.net) && old(s.accepted) <= s.accepted && Written(s, old(currentTxBytes), n)
      ensures s.closes == old(s.closes) + if currentTxBytes == TOTAL_TX_BYTES then 1 else 0
    {
      ghost var start := currentTxBytes;
      ghost var end: nat :| StopsAt(s.net, start, end);
      n := 0;
      while true
        invariant Writing(s, start, n) && n <= end
        invariant s.net == old(s.net) && old(s.accepted) <= s.accepted && s.closes == old(s.closes)
        decreases end - n
      {
        var goesOn, failed := Turn(s, start, n);
        if failed {
          return;
        }
        if !goesOn {
          break;
        }
        n := n + 1;
      }
      if currentTxBytes >= TOTAL_TX_BYTES {
        s.Close();
      }
    }

    /** One call, with the answers of the network stack from then on. */
    method Call(s: Socket, net: Net)
      requires Intact(s) && Ends(net, currentTxBytes)
      modifies s, this`currentTxBytes
      ensures Intact(s) && old(s.accepted) <= s.accepted
      ensures currentTxBytes == AfterCall(net, old(currentTxBytes))
      ensures s.closes == old(s.closes) + if currentTxBytes == TOTAL_TX_BYTES then 1 else 0
      ensures currentTxBytes < TOTAL_TX_BYTES ==> s.refused
    {
      ghost var start := currentTxBytes;
      s.Wake(net);
      ghost var n := WriteUntilBufferFull(s);
      LastTurn(net, start, n);
    }

    /** The first call and the callbacks after it, with arbitrary answers of the
        network stack with which each of them ends. */
    method Run(s: Socket, calls: seq<Net>)
      requires Intact(s) && AllEnd(calls, currentTxBytes)
      modifies s, this`currentTxBytes
      ensures Intact(s) && currentTxBytes == BytesAfter(calls, old(currentTxBytes))
      ensures currentTxBytes < TOTAL_TX_BYTES ==> s.closes == old(s.closes) && (calls != [] ==> s.refused)
      ensures currentTxBytes == TOTAL_TX_BYTES && calls != [] ==> s.closes > old(s.closes)
    {
      ghost var rest := calls;
      for i := 0 to |calls|
        invariant Intact(s) && rest == calls[i..] && AllEnd(rest, currentTxBytes)
        invariant BytesAfter(rest, currentTxBytes) == BytesAfter(calls, old(currentTxBytes))
        invariant s.closes >= old(s.closes)
        invariant currentTxBytes < TOTAL_TX_BYTES ==> s.closes == old(s.closes) && (i > 0 ==> s.refused)
        invariant currentTxBytes == TOTAL_TX_BYTES && i > 0 ==> s.closes > old(s.closes)
      {
        assert rest[0] == calls[i] && rest[1..] == calls[i + 1..];
        Call(s, calls[i]);
        rest := rest[1..];
      }
    }
  }

  /** The turn in which the loop ends. */
  ghost function EndOf(net: Net, start: nat): (n: nat)
    requires start <= TOTAL_TX_BYTES && Ends(net, start)
    ensures EndsAt(net, start, n)
  {
    var i :| StopsAt(net, start, i);
    FirstStop(net, start, i)
  }

  ghost function FirstStop(net: Net, start: nat, i: nat): (n: nat)
    requires start <= TOTAL_TX_BYTES && StopsAt(net, start, i)
    ensures EndsAt(net, start, n)
    decreases i
  {
    if j :| 0 <= j < i && StopsAt(net, start, j) then FirstStop(net, start, j) else i
  }

  ghost function AfterCall(net: Net, start: nat): nat
    requires start <= TOTAL_TX_BYTES && Ends(net, start)
  {
    BytesAt(net, start, EndOf(net, start))
  }

  lemma LastTurn(net: Net, start: nat, n: nat)
    requires start <= TOTAL_TX_BYTES && EndsAt(net, start, n)
    ensures EndOf(net, start) == n
  {
    var m := EndOf(net, start);
    assert StopsAt(net, start, m) && StopsAt(net, start, n);
  }

  /** Each call ends when those before it have. */
  ghost predicate AllEnd(calls: seq<Net>, start: nat)
    decreases |calls|
  {
    start <= TOTAL_TX_BYTES &&
    (calls == [] || (Ends(calls[0], start) && AllEnd(calls[1..], AfterCall(calls[0], start))))
  }

  ghost function BytesAfter(calls: seq<Net>, start: nat): nat
    requires AllEnd(calls, start)
    decreases |calls|
  {
    if calls == [] then start else BytesAfter(calls[1..], AfterCall(calls[0], start))
  }

  /** The buffer length is a multiple of the alphabet's: a write that goes on in
      the middle of the buffer goes on with the right letter. */
  lemma OffsetLetter(sent: nat, j: nat)
    ensures Letter(sent % WRITE_SIZE + j) == Letter(sent + j)
  {
    assert sent == WRITE_SIZE * (sent / WRITE_SIZE) + sent % WRITE_SIZE;
    var q := 40 * (sent / WRITE_SIZE);
    assert sent + j == (sent % WRITE_SIZE + j) + 26 * q;
    SameRemainder(sent % WRITE_SIZE + j, q);
  }

  /** The letters are those from a to z. */
  lemma LettersAre(k: nat)
    ensures Letter(k) == "abcdefghijklmnopqrstuvwxyz"[k % 26] as nat
  {
  }

  /** A stretch of the buffer continues the stream where the offset says. */
  lemma GoesOn(sofar: seq<nat>, buffer: seq<nat>, offset: nat, n: nat)
    requires |buffer| == WRITE_SIZE && forall k :: 0 <= k < |buffer| ==> buffer[k] == Letter(k)
    requires forall k :: 0 <= k < |sofar| ==> sofar[k] == Letter(k)
    requires offset == |sofar| % WRITE_SIZE && offset + n <= WRITE_SIZE
    ensures forall k :: 0 <= k < |sofar| + n ==> (sofar + buffer[offset..offset + n])[k] == Letter(k)
  {
    forall k | |sofar| <= k < |sofar| + n ensures buffer[offset..offset + n][k - |sofar|] == Letter(k) {
      OffsetLetter(|sofar|, k - |sofar|);
    }
  }

  lemma {:induction false} SameRemainder(x: nat, q: nat)
    ensures (x + 26 * q) % 26 == x % 26
  {
    if q > 0 {
      SameRemainder(x, q - 1);
      assert x + 26 * q == (x + 26 * (q - 1)) + 26;
    }
  }
}
