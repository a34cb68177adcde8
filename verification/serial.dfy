/** The line settings of SerialPort (src/serial_port.cpp). A termios record
    is four flag sets, the two control characters the class writes and the
    line speed; a flag is in a set when its bit is on. The flags are those of
    the POSIX General Terminal Interface (XBD section 11.2) that the class
    touches; CRTSCTS is the Linux extension it also uses. CSIZE is a field of
    two bits, CSizeLow and CSizeHigh, whose four values stand for CS5 to CS8.
    Opening the device, reading and the OS calls behind them are not
    modelled: where the class reports what the OS said, that outcome is an
    input. */
module Serial {
  import opened Common

  // ---------------------------------------------------------------------------
  // Errors (include/agent_error.h)

  datatype ErrorCode =
    | Network | Rejection | BadConfig | MemoryError | FileAlreadyExists
    | FileOpenFailed | FileCreateFailed | FileCloseFailed | UnarchiveFailed
    | NoNewMail | SerialOpenFailed | SerialNotConnected | SerialSetOptionFailed
    | SerialReadFailed | SerialWriteFailed | SerialCloseFailed | SerialBadFd
    | Unknown

  datatype SerialError = SerialError(code: ErrorCode, message: string)

  const BadFdError: SerialError := SerialError(SerialBadFd, "Bad file descriptor")

  // ---------------------------------------------------------------------------
  // termios

  datatype IFlag = IGNBRK | BRKINT | PARMRK | ISTRIP | INLCR | IGNCR | ICRNL | IXON | IXOFF | IXANY
  datatype OFlag = OPOST
  datatype LFlag = ECHO | ECHONL | ICANON | IEXTEN | ISIG
  datatype CFlag = CSizeLow | CSizeHigh | PARENB | PARODD | CSTOPB | CLOCAL | CREAD | CRTSCTS

  /** The speed_t values: the named rates, and any other code the driver may
      report. */
  datatype Speed =
    | B0 | B50 | B75 | B110 | B134 | B150 | B200 | B300 | B600 | B1200 | B2400
    | B4800 | B9600 | B19200 | B38400 | B57600 | B115200 | B230400 | B460800
    | B500000 | B576000 | B921600 | B1000000 | B1152000 | B1500000 | B2000000
    | B2500000 | B3000000 | B3500000 | B4000000
    | OtherSpeed(code: nat)

  datatype Termios = Termios(
    iflag: set<IFlag>,
    oflag: set<OFlag>,
    lflag: set<LFlag>,
    cflag: set<CFlag>,
    vtime: int,
    vmin: int,
    speed: Speed)

  type Uint32 = n: int | 0 <= n < 0x1_0000_0000

  datatype Parity = NoParity | Odd | Even
  datatype DataBits = Five | Six | Seven | Eight
  datatype StopBits = One | OnePointFive | Two
  datatype Handshake = NoHandshake | Software | Hardware | Both

  /** The CSIZE bits of CS5 to CS8. */
  function SizeBits(b: DataBits): (s: set<CFlag>)
    ensures s <= {CSizeLow, CSizeHigh}
  {
    match b
    case Five => {}
    case Six => {CSizeLow}
    case Seven => {CSizeHigh}
    case Eight => {CSizeLow, CSizeHigh}
  }

  /** Reading the CSIZE field back. */
  function DataBitsOf(cflag: set<CFlag>): DataBits {
    if CSizeLow in cflag && CSizeHigh in cflag then Eight
    else if CSizeHigh in cflag then Seven
    else if CSizeLow in cflag then Six
    else Five
  }

  /** Reading PARENB and PARODD back (GetParity itself has no body). */
  function ParityOf(cflag: set<CFlag>): Parity {
    if PARENB !in cflag then NoParity
    else if PARODD in cflag then Odd
    else Even
  }

  /** Reading the flow-control flags back. */
  function HandshakeOf(t: Termios): Handshake {
    var soft := IXON in t.iflag && IXOFF in t.iflag;
    var hard := CRTSCTS in t.cflag;
    if soft && hard then Both
    else if soft then Software
    else if hard then Hardware
    else NoHandshake
  }

  // ---------------------------------------------------------------------------
  // Setters

  const DefaultsClearedI: set<IFlag> := {IGNBRK, BRKINT, PARMRK, ISTRIP, INLCR, IGNCR, ICRNL, IXON}
  const DefaultsClearedL: set<LFlag> := {ECHO, ECHONL, ICANON, IEXTEN}

  /** SerialPort::SetDefaults: raw input and output, no echo, no canonical
      mode, signals on, no parity, eight data bits, reads return after one
      byte with no timer. Every other flag keeps its value. */
  function SetDefaults(t: Termios): (r: Termios)
    ensures ISIG in r.lflag && ECHO !in r.lflag && ICANON !in r.lflag && OPOST !in r.oflag
    ensures forall f :: f in DefaultsClearedI ==> f !in r.iflag
    ensures forall f :: f in DefaultsClearedL ==> f !in r.lflag
    ensures ParityOf(r.cflag) == NoParity && DataBitsOf(r.cflag) == Eight
    ensures r.vtime == 0 && r.vmin == 1
    ensures forall f :: f !in DefaultsClearedI ==> (f in r.iflag <==> f in t.iflag)
    ensures forall f: LFlag :: f !in DefaultsClearedL && f != ISIG ==> (f in r.lflag <==> f in t.lflag)
    ensures forall f :: f != CSizeLow && f != CSizeHigh && f != PARENB ==> (f in r.cflag <==> f in t.cflag)
    ensures r.speed == t.speed
  {
    t.(iflag := t.iflag - DefaultsClearedI,
       oflag := t.oflag - {OPOST},
       lflag := (t.lflag - DefaultsClearedL) + {ISIG},
       cflag := (t.cflag - {CSizeLow, CSizeHigh, PARENB}) + SizeBits(Eight),
       vtime := 0,
       vmin := 1)
  }

  /** Applying the defaults twice is applying them once. */
  lemma SetDefaultsIdempotent(t: Termios)
    ensures SetDefaults(SetDefaults(t)) == SetDefaults(t)
  {
    var r, r' := SetDefaults(t), SetDefaults(SetDefaults(t));
    assert r'.iflag == r.iflag && r'.oflag == r.oflag;
    assert r'.lflag == r.lflag && r'.cflag == r.cflag;
  }

  /** SerialPort::SetParity: PARENB and PARODD are cleared, then EVEN sets
      PARENB and ODD sets both; nothing else changes. */
  function SetParity(t: Termios, p: Parity): (r: Termios)
    ensures PARENB in r.cflag <==> p != NoParity
    ensures PARODD in r.cflag <==> p == Odd
    ensures forall f :: f != PARENB && f != PARODD ==> (f in r.cflag <==> f in t.cflag)
    ensures r == t.(cflag := r.cflag)
  {
    var cleared := t.cflag - {PARENB, PARODD};
    match p
    case Even => t.(cflag := cleared + {PARENB})
    case Odd => t.(cflag := cleared + {PARENB, PARODD})
    case NoParity => t.(cflag := cleared - {PARENB, PARODD})
  }

  /** SerialPort::SetDatabits: the CSIZE field is replaced, and CLOCAL and
      CREAD are set whatever the size; nothing else changes. */
  function SetDatabits(t: Termios, b: DataBits): (r: Termios)
    ensures CLOCAL in r.cflag && CREAD in r.cflag
    ensures forall f :: f != CSizeLow && f != CSizeHigh && f != CLOCAL && f != CREAD ==>
      (f in r.cflag <==> f in t.cflag)
    ensures r == t.(cflag := r.cflag)
  {
    t.(cflag := (t.cflag - {CSizeLow, CSizeHigh}) + SizeBits(b) + {CLOCAL, CREAD})
  }

  /** SerialPort::SetStopbits: ONE clears CSTOPB, TWO sets it, one and a half
      is not supported and changes nothing. */
  function SetStopbits(t: Termios, s: StopBits): (r: Termios)
    ensures s == One ==> CSTOPB !in r.cflag
    ensures s == Two ==> CSTOPB in r.cflag
    ensures s == OnePointFive ==> r == t
    ensures forall f :: f != CSTOPB ==> (f in r.cflag <==> f in t.cflag)
    ensures r == t.(cflag := r.cflag)
  {
    match s
    case One => t.(cflag := t.cflag - {CSTOPB})
    case Two => t.(cflag := t.cflag + {CSTOPB})
    case OnePointFive => t
  }

  /** SerialPort::SetEcho */
  function SetEcho(t: Termios, on: bool): (r: Termios)
    ensures ECHO in r.lflag <==> on
    ensures forall f :: f != ECHO ==> (f in r.lflag <==> f in t.lflag)
    ensures r == t.(lflag := r.lflag)
  {
    if on then t.(lflag := t.lflag + {ECHO}) else t.(lflag := t.lflag - {ECHO})
  }

  /** Only the last SetEcho counts. */
  lemma SetEchoLastWins(t: Termios, first: bool, second: bool)
    ensures SetEcho(SetEcho(t, first), second) == SetEcho(t, second)
  {
    var x, y := SetEcho(SetEcho(t, first), second).lflag, SetEcho(t, second).lflag;
    assert forall f :: f in x <==> f in y;
    assert x == y;
  }

  /** SerialPort::SetHandshake: software flow control sets IXON and IXOFF
      and otherwise clears them and IXANY; hardware flow control sets
      CRTSCTS and otherwise clears it. */
  function SetHandshake(t: Termios, h: Handshake): (r: Termios)
    ensures (h == Software || h == Both) ==> IXON in r.iflag && IXOFF in r.iflag
    ensures (h == Software || h == Both) ==> forall f :: f != IXON && f != IXOFF ==> (f in r.iflag <==> f in t.iflag)
    ensures !(h == Software || h == Both) ==> IXON !in r.iflag && IXOFF !in r.iflag && IXANY !in r.iflag
    ensures !(h == Software || h == Both) ==> forall f :: f != IXON && f != IXOFF && f != IXANY ==> (f in r.iflag <==> f in t.iflag)
    ensures CRTSCTS in r.cflag <==> (h == Hardware || h == Both)
    ensures forall f :: f != CRTSCTS ==> (f in r.cflag <==> f in t.cflag)
    ensures r == t.(iflag := r.iflag, cflag := r.cflag)
  {
    var i := if h == Software || h == Both then t.iflag + {IXON, IXOFF} else t.iflag - {IXON, IXOFF, IXANY};
    var c := if h == Hardware || h == Both then t.cflag + {CRTSCTS} else t.cflag - {CRTSCTS};
    t.(iflag := i, cflag := c)
  }

  /** Each setter is read back by its getter. */
  lemma SettersReadBack(t: Termios, p: Parity, b: DataBits, h: Handshake)
    ensures ParityOf(SetParity(t, p).cflag) == p
    ensures DataBitsOf(SetDatabits(t, b).cflag) == b
    ensures HandshakeOf(SetHandshake(t, h)) == h
  {
    var c := SetDatabits(t, b).cflag;
    assert CSizeLow in c <==> CSizeLow in SizeBits(b);
    assert CSizeHigh in c <==> CSizeHigh in SizeBits(b);
  }

  /** Parity and data bits are independent fields: setting them in either
      order gives the same settings. */
  lemma ParityAndDatabitsCommute(t: Termios, p: Parity, b: DataBits)
    ensures SetParity(SetDatabits(t, b), p) == SetDatabits(SetParity(t, p), b)
  {
    var x, y := SetParity(SetDatabits(t, b), p).cflag, SetDatabits(SetParity(t, p), b).cflag;
    forall f ensures f in x <==> f in y {
      if f == CSizeLow || f == CSizeHigh {
        assert f in x <==> f in SizeBits(b);
        assert f in y <==> f in SizeBits(b);
      }
    }
    assert x == y;
  }

  // ---------------------------------------------------------------------------
  // Baud rates

  /** The switch of SetBaudrate: the speed code of a rate, B0 for a rate not
      in the table (1500000 is not in it). */
  function SpeedFor(rate: Uint32): Speed {
    if rate == 50 then B50
    else if rate == 75 then B75
    else if rate == 110 then B110
    else if rate == 134 then B134
    else if rate == 150 then B150
    else if rate == 200 then B200
    else if rate == 300 then B300
    else if rate == 600 then B600
    else if rate == 1200 then B1200
    else if rate == 2400 then B2400
    else if rate == 4800 then B4800
    else if rate == 9600 then B9600
    else if rate == 19200 then B19200
    else if rate == 38400 then B38400
    else if rate == 57600 then B57600
    else if rate == 115200 then B115200
    else if rate == 230400 then B230400
    else if rate == 460800 then B460800
    else if rate == 500000 then B500000
    else if rate == 576000 then B576000
    else if rate == 921600 then B921600
    else if rate == 1000000 then B1000000
    else if rate == 1152000 then B1152000
    else if rate == 2000000 then B2000000
    else if rate == 2500000 then B2500000
    else if rate == 3000000 then B3000000
    else if rate == 3500000 then B3500000
    else if rate == 4000000 then B4000000
    else B0
  }

  /** The switch of GetBaudrate: the rate of a speed code, 0 for a code not
      in the table (B0 included). */
  function RateOf(s: Speed): (rate: Uint32) {
    match s
    case B50 => 50
    case B75 => 75
    case B110 => 110
    case B134 => 134
    case B150 => 150
    case B200 => 200
    case B300 => 300
    case B600 => 600
    case B1200 => 1200
    case B2400 => 2400
    case B4800 => 4800
    case B9600 => 9600
    case B19200 => 19200
    case B38400 => 38400
    case B57600 => 57600
    case B115200 => 115200
    case B230400 => 230400
    case B460800 => 460800
    case B500000 => 500000
    case B576000 => 576000
    case B921600 => 921600
    case B1000000 => 1000000
    case B1152000 => 1152000
    case B1500000 => 1500000
    case B2000000 => 2000000
    case B2500000 => 2500000
    case B3000000 => 3000000
    case B3500000 => 3500000
    case B4000000 => 4000000
    case B0 => 0
    case OtherSpeed(_) => 0
  }

  /** The rates SetBaudrate accepts. */
  const AcceptedRates: set<int> := {
    50, 75, 110, 134, 150, 200, 300, 600, 1200, 2400, 4800, 9600, 19200,
    38400, 57600, 115200, 230400, 460800, 500000, 576000, 921600, 1000000,
    1152000, 2000000, 2500000, 3000000, 3500000, 4000000}

  /** The encode table accepts exactly AcceptedRates, and the decode table
      inverts it there. */
  lemma EncodeDecode(rate: Uint32)
    ensures SpeedFor(rate) != B0 <==> rate in AcceptedRates
    ensures rate in AcceptedRates ==> RateOf(SpeedFor(rate)) == rate
  {
  }

  /** The other direction: every code the encode table produces comes back
      from the decode table. B1500000 decodes but cannot be set. */
  lemma DecodeEncode(s: Speed)
    requires s != B0 && s != B1500000 && !s.OtherSpeed?
    ensures SpeedFor(RateOf(s)) == s
  {
  }

  lemma OnePointFiveMegabaudOneWay()
    ensures RateOf(B1500000) == 1500000 && SpeedFor(1500000) == B0
  {
  }

  /** SerialPort::SetBaudrate. A rate outside the table is refused with
      "Bad baudrate: N" and leaves the settings unchanged; otherwise the
      input and output speed are set (cfsetspeed is taken to succeed). */
  function SetBaudrate(t: Termios, rate: Uint32): (r: (Termios, Option<SerialError>))
    ensures r.1.None? <==> rate in AcceptedRates
    ensures r.1.None? ==> r.0 == t.(speed := r.0.speed) && RateOf(r.0.speed) == rate
    ensures r.1.Some? ==> r.0 == t && r.1.value == SerialError(SerialSetOptionFailed, "Bad baudrate: " + NatToString(rate))
  {
    EncodeDecode(rate);
    var s := SpeedFor(rate);
    if s == B0 then (t, Some(SerialError(SerialSetOptionFailed, "Bad baudrate: " + NatToString(rate))))
    else (t.(speed := s), None)
  }

  /** SerialPort::GetBaudrate, given the file descriptor and the settings
      tcgetattr reports for it: a descriptor that is not positive is
      refused; otherwise the input speed is decoded, unknown codes as 0. */
  function GetBaudrate(fd: int, device: Termios): (r: Result<Uint32, SerialError>)
    ensures fd <= 0 <==> r.Err?
    ensures r.Err? ==> r.error == BadFdError
    ensures r.Ok? ==> r.value == RateOf(device.speed)
    ensures r.Ok? && r.value != 0 ==> device.speed != B0 && !device.speed.OtherSpeed?
  {
    if fd <= 0 then Err(BadFdError) else Ok(RateOf(device.speed))
  }

  /** Round trip: a rate the port accepts is the rate read back from a
      device that carries the resulting settings. */
  lemma BaudrateRoundTrip(fd: int, t: Termios, rate: Uint32)
    requires fd > 0 && rate in AcceptedRates
    ensures GetBaudrate(fd, SetBaudrate(t, rate).0) == Ok(rate)
  {
  }

  /** A refused rate can be read back from nowhere: the message names it,
      and the settings keep their old speed. */
  lemma RefusedRateKeepsSpeed(fd: int, t: Termios, rate: Uint32)
    requires fd > 0 && rate !in AcceptedRates
    ensures GetBaudrate(fd, SetBaudrate(t, rate).0) == GetBaudrate(fd, t)
    ensures DecimalValue(SetBaudrate(t, rate).1.value.message[14..]) == rate
  {
    var m := SetBaudrate(t, rate).1.value.message;
    assert m[14..] == NatToString(rate);
    NatToStringRoundTrip(rate);
  }

  // ---------------------------------------------------------------------------
  // Descriptor guards

  /** SerialPort::Close: a descriptor that is not positive is refused;
      otherwise the settings are restored and the OS close outcome decides
      (its error text, if it failed). */
  function Close(fd: int, closeFailure: Option<string>): (r: Option<SerialError>)
    ensures fd <= 0 ==> r == Some(BadFdError)
    ensures fd > 0 ==> (r.None? <==> closeFailure.None?)
    ensures fd > 0 && r.Some? ==> r.value == SerialError(SerialCloseFailed, closeFailure.value)
  {
    if fd > 0 then
      match closeFailure
      case None => None
      case Some(what) => Some(SerialError(SerialCloseFailed, what))
    else Some(BadFdError)
  }

  /** SerialPort::Write: a descriptor that is not positive is refused with
      a count of 0; otherwise the count write(2) returns for the data, which
      is -1 or at most the data's length, is passed on, with an error when
      it is negative. */
  function Write(fd: int, data: seq<bv8>, written: int, errorText: string): (r: (int, Option<SerialError>))
    requires -1 <= written <= |data|
    ensures r.0 <= |data|
    ensures fd <= 0 ==> r == (0, Some(BadFdError))
    ensures fd > 0 ==> r.0 == written
    ensures fd > 0 ==> (r.1.None? <==> written >= 0)
    ensures fd > 0 && r.1.Some? ==> r.1.value == SerialError(SerialWriteFailed, errorText)
  {
    if fd <= 0 then (0, Some(BadFdError))
    else if written < 0 then (written, Some(SerialError(SerialWriteFailed, errorText)))
    else (written, None)
  }

  /** SerialPort::SerialPort: descriptor 0 and the defaults applied to
      whatever the settings held. */
  function NewPort(initial: Termios): (int, Termios) {
    (0, SetDefaults(initial))
  }

  /** A port that was never opened refuses every descriptor operation. */
  lemma UnopenedPortRefuses(initial: Termios, data: seq<bv8>, written: int, errorText: string, closeFailure: Option<string>)
    requires -1 <= written <= |data|
    ensures Close(NewPort(initial).0, closeFailure) == Some(BadFdError)
    ensures Write(NewPort(initial).0, data, written, errorText) == (0, Some(BadFdError))
    ensures GetBaudrate(NewPort(initial).0, NewPort(initial).1) == Err(BadFdError)
  {
  }
}
