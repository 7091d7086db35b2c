/*
 * The requests the driver builds by hand (nrf_advertise,
 * nrf_send_button_data, nrf_print_temperature) and the decoding of the
 * temperature response into the text the driver prints.
 */
module Commands {
  import opened Aci
  import opened Pipes
  import opened Exchange
  import Uart

  /** A payload holding `prefix` followed by zeros: a memset buffer with its first bytes set. */
  function PayloadOf(prefix: seq<byte>): (p: Payload)
    requires |prefix| <= 30
    ensures forall i | 0 <= i < 30 :: p[i] == if i < |prefix| then prefix[i] else 0
  {
    prefix + seq(30 - |prefix|, _ => 0)
  }

  // ---------------------------------------------------------------------
  // nrf_advertise.

  /** Advertise without a time limit ... */
  const AdvertiseTimeout := 0
  /** ... every 128 units of 0.625 ms. */
  const AdvertiseInterval := 128

  /** The Connect request: the timeout and the interval, each lsb first. */
  function AdvertiseFrame(): TxFrame
  {
    TxFrame(5, CmdConnect, PayloadOf([0, 0, 0x80, 0]))
  }

  /** The Connect request carries four data bytes, 0 0 0x80 0, and zeros after them. */
  lemma AdvertiseFrameLayout()
    ensures var t := AdvertiseFrame();
      && t.length == 5 && t.command == 0x0f
      && t.data[0] == 0 && t.data[1] == 0 && t.data[2] == 0x80 && t.data[3] == 0
      && forall i | 4 <= i < 30 :: t.data[i] == 0
  {
  }

  /** Bytes 0 and 1 are the timeout split lsb first, and read back as it. */
  lemma AdvertiseTimeoutBytes()
    ensures var t := AdvertiseFrame();
      && t.data[0] == Lsb(AdvertiseTimeout) && t.data[1] == Msb(AdvertiseTimeout)
      && Word(t.data[0], t.data[1]) == AdvertiseTimeout
  {
    AdvertiseFrameLayout();
    AdvertiseWordBytes();
  }

  /** Bytes 2 and 3 are the interval split lsb first, and read back as it. */
  lemma AdvertiseIntervalBytes()
    ensures var t := AdvertiseFrame();
      && t.data[2] == Lsb(AdvertiseInterval) && t.data[3] == Msb(AdvertiseInterval)
      && Word(t.data[2], t.data[3]) == AdvertiseInterval
  {
    AdvertiseFrameLayout();
    AdvertiseWordBytes();
  }

  /** The timeout splits into 0 0, the interval into 0x80 0. */
  lemma AdvertiseWordBytes()
    ensures Lsb(AdvertiseTimeout) == 0 && Msb(AdvertiseTimeout) == 0
    ensures Lsb(AdvertiseInterval) == 0x80 && Msb(AdvertiseInterval) == 0
  {
  }

  /** nrf_advertise: build the Connect request in tx and send it. */
  function Advertise(s: DriverState): DriverState
    requires s.Ready()
  {
    Send(s.(tx := AdvertiseFrame()))
  }

  /**
   * Advertising makes one transaction whose first six bytes are the whole
   * Connect request, and changes nothing but tx, the cursor and the wire.
   */
  lemma AdvertiseSends(s: DriverState)
    requires s.Ready()
    ensures var r := Advertise(s);
      && r == s.(tx := AdvertiseFrame(), next := s.next + 1, wire := r.wire)
      && |r.wire| == |s.wire| + 1 && r.wire[..|s.wire|] == s.wire
      && |r.wire[|s.wire|]| >= 6
      && r.wire[|s.wire|][..6] == [5, 0x0f, 0, 0, 0x80, 0]
  {
    var t := AdvertiseFrame();
    assert t.data[0] == 0 && t.data[1] == 0 && t.data[2] == 0x80 && t.data[3] == 0;
    ClockedHead(t, s.peer[s.next], [5, 0x0f, 0, 0, 0x80, 0]);
  }

  // ---------------------------------------------------------------------
  // nrf_send_button_data.

  /** The SendData request: the pipe and the button state. */
  function ButtonFrame(pipe: byte, button: byte): TxFrame
  {
    TxFrame(3, CmdSendData, PayloadOf([pipe, button]))
  }

  /**
   * nrf_send_button_data: -1 and nothing sent while the pipe is closed,
   * otherwise the SendData request goes out and the result is 0.
   */
  function SendButtonData(pipe: byte, button: byte, s: DriverState): (r: (int, DriverState))
    requires pipe < 64
    requires pipe in s.pipesOpen ==> s.Ready()
    ensures r.0 == 0 || r.0 == -1
  {
    if pipe !in s.pipesOpen then (-1, s)
    else (0, Send(s.(tx := ButtonFrame(pipe, button))))
  }

  /** A closed pipe: -1, and the state (the wire included) does not change. */
  lemma SendButtonClosed(pipe: byte, button: byte, s: DriverState)
    requires pipe < 64 && pipe !in s.pipesOpen
    ensures SendButtonData(pipe, button, s) == (-1, s)
  {
  }

  /**
   * An open pipe: 0, one transaction that starts with length 3, SendData,
   * the pipe and the button state, and nothing else but tx changes.
   */
  lemma SendButtonOpen(pipe: byte, button: byte, s: DriverState)
    requires pipe < 64 && pipe in s.pipesOpen && s.Ready()
    ensures var (code, r) := SendButtonData(pipe, button, s);
      && code == 0
      && r == s.(tx := ButtonFrame(pipe, button), next := s.next + 1, wire := r.wire)
      && |r.wire| == |s.wire| + 1 && r.wire[..|s.wire|] == s.wire
      && |r.wire[|s.wire|]| >= 4
      && r.wire[|s.wire|][..4] == [3, 0x15, pipe, button]
  {
    ClockedHead(ButtonFrame(pipe, button), s.peer[s.next], [3, 0x15, pipe, button]);
  }

  /** The outcome depends on the pipe bit alone: -1 exactly when it is clear. */
  lemma SendButtonResult(pipe: byte, button: byte, s: DriverState)
    requires pipe < 64 && (pipe in s.pipesOpen ==> s.Ready())
    ensures SendButtonData(pipe, button, s).0 == -1 <==> pipe !in s.pipesOpen
    ensures SendButtonData(pipe, button, s).0 == -1 ==> SendButtonData(pipe, button, s).1 == s
  {
  }

  // ---------------------------------------------------------------------
  // nrf_print_temperature.

  /** The GetTemperature request: no data. */
  function TemperatureFrame(): TxFrame
  {
    TxFrame(1, CmdGetTemperature, PayloadOf([]))
  }

  /** The two hundredths digits printed for the quarter degrees q. */
  function FractionText(q: nat): (t: string)
    requires q < 4
    ensures |t| == 2
  {
    if q == 0 then "00" else if q == 1 then "25" else if q == 2 then "50" else "75"
  }

  /** The fraction printed is q quarters of a degree, in hundredths. */
  lemma FractionValue(q: nat)
    requires q < 4
    ensures Uart.DecimalValue(FractionText(q)) == 25 * q
  {
    var t := FractionText(q);
    assert Uart.DecimalValue(t[..1]) == Uart.DigitValue(t[0]) by {
      assert t[..1][..0] == [];
    }
    assert Uart.DecimalValue(t) == 10 * Uart.DecimalValue(t[..1]) + Uart.DigitValue(t[1]);
  }

  /** The temperature in degrees: the whole part, a point and two fraction digits. */
  function Celsius(raw: nat): string
    requires raw < 0x1_0000
  {
    Uart.IntText(raw / 4, 1) + "." + FractionText(raw % 4)
  }

  /** The full line nrf_print_temperature emits. */
  function TemperatureText(raw: nat): string
    requires raw < 0x1_0000
  {
    "Temperature: " + Celsius(raw) + " C\r\n"
  }

  /** The text is the whole part, the point and the two fraction digits, in that order. */
  lemma CelsiusParts(raw: nat)
    requires raw < 0x1_0000
    ensures var c := Celsius(raw); var whole := Uart.IntText(raw / 4, 1);
      && |c| == |whole| + 3
      && c[..|whole|] == whole && c[|whole|] == '.' && c[|whole| + 1..] == FractionText(raw % 4)
  {
  }

  /**
   * The raw value counts quarter degrees: the printed text holds a point
   * three characters from its end, and reads as raw / 4 degrees and
   * 25 * (raw % 4) hundredths, which together are 25 * raw hundredths.
   */
  lemma CelsiusValue(raw: nat)
    requires raw < 0x1_0000
    ensures var c := Celsius(raw); var p := |c| - 3;
      && |c| >= 4 && c[p] == '.'
      && (forall i | 0 <= i < p :: '0' <= c[i] <= '9')
      && Uart.DecimalValue(c[..p]) == raw / 4
      && Uart.DecimalValue(c[p + 1..]) == 25 * (raw % 4)
      && 100 * Uart.DecimalValue(c[..p]) + Uart.DecimalValue(c[p + 1..]) == 25 * raw
  {
    var whole := Uart.IntText(raw / 4, 1);
    CelsiusParts(raw);
    Uart.IntTextValue(raw / 4, 1);
    Uart.IntTextDigits(raw / 4, 1);
    FractionValue(raw % 4);
  }

  /** A raw reading of 65 quarter degrees prints as 16.25. */
  lemma CelsiusExample()
    ensures Celsius(65) == "16.25"
  {
    Uart.IntTextSixteen();
  }

  /**
   * nrf_print_temperature: zero tx and rx, send GetTemperature, receive
   * the response in a second transaction, read the word at data[3..5] and
   * print it.
   */
  function PrintTemperature(s: DriverState): (r: (string, DriverState))
    requires s.next + 2 <= |s.peer|
  {
    var s1 := TxRx(s.(tx := TemperatureFrame(), rx := ZeroRx()));
    (TemperatureText(Word(s1.rx.data[3], s1.rx.data[4])), s1)
  }

  /**
   * The value printed comes from the second frame, bytes 3 and 4 of the
   * event lsb first, whatever the first frame was; the request goes out in
   * the first transaction.
   */
  lemma PrintTemperatureReads(s: DriverState)
    requires s.next + 2 <= |s.peer|
    ensures var (text, r) := PrintTemperature(s); var f := s.peer[s.next + 1];
      && text == TemperatureText(Word(EventByte(f, 3), EventByte(f, 4)))
      && r.rx == Incoming(f)
      && r.tx == TemperatureFrame()
      && r.next == s.next + 2
      && r.wire == s.wire + [Clocked(TemperatureFrame(), s.peer[s.next]), Clocked(ZeroTx(), f)]
      && r.wire[|s.wire|][..2] == [1, 0x0c]
  {
    var f := s.peer[s.next + 1];
    IncomingBytes(f);
    TxRxKeepsSecondReply(s.(tx := TemperatureFrame(), rx := ZeroRx()), f);
  }
}
