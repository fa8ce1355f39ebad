/** SendPrepare, the transmit buffer and the receive callback as they run. */
module Radio {
  import opened Common
  import opened FormatModel
  import opened ScanModel
  import opened FrameModel
  import RadioTrip
  import Format
  import Scanner

  /** rt_memset(radio_send_buf, 0, sizeof(radio_send_buf)) */
  method Clear(buf: array<char>)
    modifies buf
    ensures buf[..] == Rep('\0', buf.Length)
  {
    for i := 0 to buf.Length
      invariant forall j | 0 <= j < i :: buf[j] == '\0'
    {
      buf[i] := '\0';
    }
  }

  /** The checksum loop: an 8-bit sum. */
  method Sum(buf: array<char>, n: nat) returns (check: Byte)
    requires n <= buf.Length
    ensures check == Check(buf[..n]) && check == SumOf(buf[..n]) % 256
  {
    check := 0;
    for i := 0 to n
      invariant check == Check(buf[..i])
    {
      check := (check + buf[i] as int) % 256;
      assert buf[..i + 1][..i] == buf[..i];
    }
    CheckIsSum(buf[..n]);
  }

  /** A text with its terminator fits: the room beyond does not matter. */
  lemma SameImage(was: seq<char>, out: seq<char>, room: nat, room': nat)
    requires |out| < |was| && |out| < room && |out| < room'
    ensures Image(was, out, room) == Image(was, out, room')
  {}

  /** Case 0 of SendPrepare, into the 255 bytes at address `addr`. */
  method SendPrepare(buf: array<char>, addr: Word, m: Send)
    requires buf.Length == SEND_BUF && addr + SEND_BUF < 0x1_0000_0000
    modifies buf
    ensures buf[..] == Prepared(m) && IsSeal(buf[..])
  {
    Clear(buf);
    RadioTrip.FrameShort(m);
    SameImage(buf[..], FrameText(m), Room(addr, 0xFFFF_FFFF), SEND_BUF);
    var n := Format.VsnPrintf(buf, addr, 0xFFFF_FFFF, FORMAT, FrameArgs(m));
    Seal(buf);
  }

  method Seal(buf: array<char>)
    requires buf.Length >= 32
    modifies buf
    ensures buf[..] == Sealed(old(buf[..]))
    ensures IsSeal(buf[..]) && buf[..28] == old(buf[..28]) && buf[32..] == old(buf[32..])
  {
    SealedIs(buf[..]);
    var check := Sum(buf, 28);
    buf[28] := HexDigit(check / 16);
    buf[29] := HexDigit(check % 16);
    buf[30] := '\r';
    buf[31] := '\n';
  }

  /** rt_strlen of a terminated buffer. */
  method Strlen(buf: array<char>) returns (n: nat)
    requires FirstNul(buf[..], 0) < buf.Length
    ensures n == FirstNul(buf[..], 0)
  {
    n := 0;
    while buf[n] != '\0'
      invariant n < buf.Length && FirstNul(buf[..], 0) == FirstNul(buf[..], n)
      decreases buf.Length - n
    {
      n := n + 1;
    }
  }

  /** RF_Send and transmit_packet_task: length byte, then the text. */
  method RfSend(buf: array<char>, tx: array<char>)
    requires buf.Length == tx.Length == SEND_BUF && buf != tx && FirstNul(buf[..], 0) < SEND_BUF
    modifies tx
    ensures tx[..|OnAir(buf[..])|] == OnAir(buf[..])
    ensures tx[|OnAir(buf[..])|..] == old(tx[|OnAir(buf[..])|..])
  {
    var len := Strlen(buf);
    tx[0] := ((len + 1) % 256) as char;
    for i := 0 to len
      invariant tx[0] == ((len + 1) % 256) as char
      invariant forall j | 0 <= j < i :: tx[j + 1] == buf[j]
      invariant forall j | i < j < tx.Length :: tx[j] == old(tx[j])
    {
      tx[i + 1] := buf[i];
    }
  }

  /** rf433_rx_callback up to the scanned message of NormalSolve. */
  method RxCallback(rx: array<char>, len: nat, message: array<int>) returns (d: Delivery)
    requires 1 <= len < rx.Length && message.Length == 5
    modifies message
    ensures d == Receive(rx[..], len)
    ensures d.Normal? <==> rx[1] == '{' && rx[len] == '\n' && rx[len - 1] == '\r'
    ensures d.Gateway? <==> rx[1] == 'G'
    ensures d.Normal? ==> message[..|d.fields|] == d.fields
    ensures !d.Normal? ==> message[..] == old(message[..])
  {
    d := Ignored;
    if rx[1] == '{' {
      if rx[len] == '\n' && rx[len - 1] == '\r' {
        MessageShort(Tail(rx[..]));
        var n := Scanner.Sscanf(Tail(rx[..]), SCAN_FORMAT, message);
        d := Normal(message[..n]);
      }
    } else if rx[1] == 'G' {
      d := Gateway;
    }
  }
}
