/**
 What one SBS-1 BaseStation line means (src/dump1090.cpp, lines 158-186 and 330-453), as a function
 of its text and receive stamp alone, together with a printer of such lines that it undoes.
 */
module Sbs1 {
  import opened Limits
  import opened Wrappers
  import opened Records
  import opened Numerals
  import opened Text
  import opened Fields
  import Replay

  const FIELD_TYPE := 0
  const FIELD_ID := 1
  const FIELD_ADDRESS := 4
  const FIELD_CALLSIGN := 10
  const FIELD_ALTITUDE := 11
  const FIELD_GROUNDSPEED := 12
  const FIELD_TRACK := 13
  const FIELD_LAT := 14
  const FIELD_LNG := 15
  const FIELD_VERTRATE := 16
  const FIELD_SQUAWK := 17

  const ID_IDENT := 1
  const ID_SURFACE_POS := 2
  const ID_AIRBORNE_POS := 3
  const ID_AIRBORNE_VEL := 4
  const ID_SURVEILLANCE_ALT := 5
  const ID_SURVEILLANCE_ID := 6
  const ID_AIR_TO_AIR := 7
  const ID_ALL_CALL_REPLY := 8

  const MAX_LATITUDE := 90.0
  const MAX_LONGITUDE := 180.0
  const MAX_TRACK := 360.0

  /** A field that parsed becomes a field of the message; one that did not leaves it unset. */
  function Observed<T>(parsed: Option<T>, unset: Field<T>, stamp: nat): Field<T> {
    match parsed
    case None => unset
    case Some(v) => Field(v, true, stamp)
  }

  function AltitudeIn(s: string): Option<nat> {
    ClampedInteger(s, 0, UINT32_MAX)
  }

  function VertrateIn(s: string): Option<int> {
    ClampedInteger(s, INT16_MIN, INT16_MAX)
  }

  function PositionIn(lat: string, lng: string): Option<Point> {
    var latitude := ToDouble(lat, -MAX_LATITUDE, Some(MAX_LATITUDE));
    var longitude := ToDouble(lng, -MAX_LONGITUDE, Some(MAX_LONGITUDE));
    if latitude.Some? && longitude.Some? then Some(Point(latitude.value, longitude.value)) else None
  }

  /** Columns 10 to 17 of a record, the ones that carry data. */
  datatype Columns = Columns(callsign: string, altitude: string, groundspeed: string, track: string,
                             lat: string, lng: string, vertrate: string, squawk: string)

  function ColumnsOf(data: seq<string>): Columns
    requires |data| > FIELD_SQUAWK
  {
    Columns(data[FIELD_CALLSIGN], data[FIELD_ALTITUDE], data[FIELD_GROUNDSPEED], data[FIELD_TRACK],
            data[FIELD_LAT], data[FIELD_LNG], data[FIELD_VERTRATE], data[FIELD_SQUAWK])
  }

  /** The message carried by the columns, by transmission type; none for an unknown type. */
  function MessageOf(id: int, address: nat, data: Columns, stamp: nat): Option<AdsbRecord> {
    var m := EmptyRecord(address).(lastSeen := stamp);
    var altitude := Observed(AltitudeIn(data.altitude), m.altitude, stamp);
    if id == ID_IDENT then
      Some(m.(callsign := Field(data.callsign, true, stamp)))
    else if id == ID_AIRBORNE_POS then
      Some(m.(position := PositionIn(data.lat, data.lng), altitude := altitude))
    else if id == ID_AIRBORNE_VEL then
      Some(m.(speed := Observed(ToDouble(data.groundspeed, 0.0, None), m.speed, stamp),
              heading := Observed(ToDouble(data.track, 0.0, Some(MAX_TRACK)), m.heading, stamp),
              vertVel := Observed(VertrateIn(data.vertrate), m.vertVel, stamp)))
    else if id == ID_SURVEILLANCE_ID then
      Some(m.(squawk := Observed(SquawkIn(data.squawk), m.squawk, stamp), altitude := altitude))
    else if id == ID_SURVEILLANCE_ALT || id == ID_AIR_TO_AIR then
      Some(m.(altitude := altitude))
    else if id == ID_SURFACE_POS || id == ID_ALL_CALL_REPLY then
      Some(m)
    else None
  }

  /** The message of a record, if it is a MSG record with enough fields, a valid address and a known type. */
  function ParseFields(data: seq<string>, stamp: nat): Option<AdsbRecord> {
    if |data| <= FIELD_SQUAWK || data[FIELD_TYPE] != "MSG" then None
    else
      match ToAddress(data[FIELD_ADDRESS])
      case None => None
      case Some(address) => MessageOf(StrtolValue(data[FIELD_ID]), address, ColumnsOf(data), stamp)
  }

  function ParseLine(line: string, stamp: nat): Option<AdsbRecord> {
    ParseFields(Split(line, ","), stamp)
  }

  /** strtol saturates at the ends of long, far from any transmission type. */
  lemma SaturatedIdIsUnknown(s: string, long: IntType, id: int)
    requires long.Signed? && long.bits >= 32 && 1 <= id <= 8
    ensures Strtol(s, long) == id <==> StrtolValue(s) == id
  {
    PowMonotone(2, 31, long.bits - 1);
    PowersOfTwo();
  }

  // ---------------------------------------------------------------- which records are messages

  /** A record with at least 18 fields, of kind MSG, from a 24-bit address other than 0, and of a type from 1 to 8. */
  predicate IsMessage(data: seq<string>) {
    && |data| >= 18 && data[0] == "MSG"
    && data[4] != "" && AllDigits(data[4], 16) && 1 <= Value(data[4], 16) <= 0xFF_FFFF
    && 1 <= StrtolValue(data[1]) <= 8
  }

  /** Exactly these are messages, under their own address and stamp; every other record gives nothing. */
  lemma OnlyMessagesCount(data: seq<string>, stamp: nat)
    ensures ParseFields(data, stamp).Some? <==> IsMessage(data)
    ensures IsMessage(data) ==> ParseFields(data, stamp).value.icao == Value(data[4], 16)
    ensures IsMessage(data) ==> ParseFields(data, stamp).value.lastSeen == stamp
  {
    if |data| >= 18 {
      AddressIsHexValue(data[4]);
    }
  }

  // ---------------------------------------------------------------- what every message satisfies

  /** Address, coordinates, heading and squawk are in range, as the parser leaves them. */
  predicate InRange(m: AdsbRecord) {
    && 1 <= m.icao <= ICAO_ADDRESS_MAX
    && (m.position.Some? ==> && -90.0 <= m.position.value.latitude <= 90.0
                             && -180.0 <= m.position.value.longitude <= 180.0)
    && (m.altitude.valid ==> m.altitude.value <= UINT32_MAX)
    && 0.0 <= m.heading.value <= 360.0
    && 0.0 <= m.speed.value
    && INT16_MIN <= m.vertVel.value <= INT16_MAX
    && (m.squawk.valid ==> m.squawk.value <= SQUAWK_MAX && OctalDigits(m.squawk.value))
  }

  lemma ContentsAreInRange(id: int, address: nat, data: Columns, stamp: nat)
    requires 1 <= address <= ICAO_ADDRESS_MAX
    ensures var m := MessageOf(id, address, data, stamp);
            m.Some? ==> InRange(m.value) && Replay.Stamped(m.value) && m.value.lastSeen == stamp
  {
    if id == ID_SURVEILLANCE_ID && IsSquawk(data.squawk) {
      SquawkByValue(data.squawk);
    }
  }

  lemma MessagesAreInRange(line: string, stamp: nat)
    ensures var m := ParseLine(line, stamp);
            m.Some? ==> InRange(m.value) && Replay.Stamped(m.value) && m.value.lastSeen == stamp
  {
    var data := Split(line, ",");
    if |data| > FIELD_SQUAWK && ToAddress(data[FIELD_ADDRESS]).Some? {
      AddressIsHexValue(data[FIELD_ADDRESS]);
      ContentsAreInRange(StrtolValue(data[FIELD_ID]), ToAddress(data[FIELD_ADDRESS]).value, ColumnsOf(data), stamp);
    }
  }

  // ---------------------------------------------------------------- printing

  /** What one transmission reports; numbers may be missing. Squawks are 12-bit identity codes. */
  datatype Content =
    | Ident(callsign: string)
    | SurfacePos
    | AirbornePos(lat: Option<Fixed>, lng: Option<Fixed>, altitude: Option<int>)
    | AirborneVel(speed: Option<Fixed>, track: Option<Fixed>, vertRate: Option<int>)
    | SurveillanceAlt(altitude: Option<int>)
    | SurveillanceId(squawk: Option<nat>, altitude: Option<int>)
    | AirToAir(altitude: Option<int>)
    | AllCallReply

  /** One transmission, with whatever stands in the fields and columns that the parser does not look at. */
  datatype Transmission = Transmission(address: nat, content: Content, other: Columns,
                                       session: seq<string>, dates: seq<string>, flags: seq<string>)

  /** Text that neither the field splitter nor the framer would cut. */
  predicate PlainText(s: string) {
    Free(s, ",\r\n")
  }

  predicate PlainColumns(c: Columns) {
    && PlainText(c.callsign) && PlainText(c.altitude) && PlainText(c.groundspeed) && PlainText(c.track)
    && PlainText(c.lat) && PlainText(c.lng) && PlainText(c.vertrate) && PlainText(c.squawk)
  }

  predicate IdentityCode(squawk: Option<nat>) {
    squawk.Some? ==> squawk.value < 4096
  }

  predicate PrintableContent(c: Content) {
    && (c.Ident? ==> PlainText(c.callsign))
    && (c.SurveillanceId? ==> IdentityCode(c.squawk))
  }

  predicate Printable(w: Transmission) {
    && 1 <= w.address <= ICAO_ADDRESS_MAX
    && |w.session| == 2 && |w.dates| == 5
    && (forall i | 0 <= i < 2 :: PlainText(w.session[i]))
    && (forall i | 0 <= i < 5 :: PlainText(w.dates[i]))
    && (forall i | 0 <= i < |w.flags| :: PlainText(w.flags[i]))
    && PlainColumns(w.other) && PrintableContent(w.content)
  }

  function IdOf(c: Content): nat {
    match c
    case Ident(_) => 1
    case SurfacePos => 2
    case AirbornePos(_, _, _) => 3
    case AirborneVel(_, _, _) => 4
    case SurveillanceAlt(_) => 5
    case SurveillanceId(_, _) => 6
    case AirToAir(_) => 7
    case AllCallReply => 8
  }

  function PrintAddress(a: nat): (s: string)
    requires a <= ICAO_ADDRESS_MAX
    ensures AllDigits(s, 16) && |s| == 6 && Value(s, 16) == a
  {
    assert Pow(16, 3) == 4096;
    PowSum(16, 3, 3);
    Padded(a, 16, 6)
  }

  function PrintInteger(n: Option<int>): string {
    match n
    case None => ""
    case Some(v) => SignedDecimal(v)
  }

  function PrintReal(x: Option<Fixed>): string {
    match x
    case None => ""
    case Some(v) => PrintFixed(v)
  }

  function PrintCode(squawk: Option<nat>): string
    requires IdentityCode(squawk)
  {
    match squawk
    case None => ""
    case Some(v) => PrintSquawk(v)
  }

  /** A missing number is an empty column; the columns that a transmission type does not carry hold anything. */
  function PrintContent(c: Content, other: Columns): Columns
    requires PrintableContent(c)
  {
    match c
    case Ident(callsign) => other.(callsign := callsign)
    case SurfacePos => other
    case AirbornePos(lat, lng, altitude) =>
      other.(altitude := PrintInteger(altitude), lat := PrintReal(lat), lng := PrintReal(lng))
    case AirborneVel(speed, track, vertRate) =>
      other.(groundspeed := PrintReal(speed), track := PrintReal(track), vertrate := PrintInteger(vertRate))
    case SurveillanceAlt(altitude) => other.(altitude := PrintInteger(altitude))
    case SurveillanceId(squawk, altitude) =>
      other.(altitude := PrintInteger(altitude), squawk := PrintCode(squawk))
    case AirToAir(altitude) => other.(altitude := PrintInteger(altitude))
    case AllCallReply => other
  }

  /** The first ten fields: the record's kind, and what the parser needs of the rest. */
  function PrintHeader(w: Transmission): (fields: seq<string>)
    requires Printable(w)
    ensures |fields| == 10
  {
    ["MSG", Decimal(IdOf(w.content)), w.session[0], w.session[1], PrintAddress(w.address),
     w.dates[0], w.dates[1], w.dates[2], w.dates[3], w.dates[4]]
  }

  function ColumnList(c: Columns): (fields: seq<string>)
    ensures |fields| == 8
  {
    [c.callsign, c.altitude, c.groundspeed, c.track, c.lat, c.lng, c.vertrate, c.squawk]
  }

  function PrintFields(w: Transmission): (fields: seq<string>)
    requires Printable(w)
    ensures |fields| >= 18
  {
    PrintHeader(w) + (ColumnList(PrintContent(w.content, w.other)) + w.flags)
  }

  function PrintLine(w: Transmission): string
    requires Printable(w)
  {
    Join(PrintFields(w), ',')
  }

  function RangeChecked(x: Option<Fixed>, lo: real, hi: Option<real>): Option<real> {
    if x == None || FixedValue(x.value) < lo || (hi.Some? && FixedValue(x.value) > hi.value) then None
    else Some(FixedValue(x.value))
  }

  function Clamped(n: Option<int>, lo: int, hi: int): (r: Option<int>)
    requires lo <= hi
    ensures r.Some? ==> lo <= r.value <= hi
  {
    match n
    case None => None
    case Some(v) => Some(Clamp(v, lo, hi))
  }

  function Altitude(n: Option<int>): Option<nat> {
    Clamped(n, 0, UINT32_MAX)
  }

  function StoredCode(squawk: Option<nat>): Option<nat> {
    match squawk
    case None => None
    case Some(v) => Some(FromOctal(v))
  }

  /** A position is received when both of its coordinates are there and in range. */
  function Fix(lat: Option<Fixed>, lng: Option<Fixed>): Option<Point> {
    var latitude, longitude := RangeChecked(lat, -90.0, Some(90.0)), RangeChecked(lng, -180.0, Some(180.0));
    if latitude.Some? && longitude.Some? then Some(Point(latitude.value, longitude.value)) else None
  }

  /**
   The message that a transmission should be received as: its own values, clamped or range-checked,
   and unset where it has none. What stands in other columns does not enter.
   */
  function Received(w: Transmission, stamp: nat): AdsbRecord {
    var m := EmptyRecord(w.address).(lastSeen := stamp);
    match w.content
    case Ident(callsign) => m.(callsign := Field(callsign, true, stamp))
    case SurfacePos => m
    case AirbornePos(lat, lng, altitude) =>
      m.(position := Fix(lat, lng), altitude := Observed(Altitude(altitude), m.altitude, stamp))
    case AirborneVel(speed, track, vertRate) =>
      m.(speed := Observed(RangeChecked(speed, 0.0, None), m.speed, stamp),
         heading := Observed(RangeChecked(track, 0.0, Some(360.0)), m.heading, stamp),
         vertVel := Observed(Clamped(vertRate, INT16_MIN, INT16_MAX), m.vertVel, stamp))
    case SurveillanceAlt(altitude) => m.(altitude := Observed(Altitude(altitude), m.altitude, stamp))
    case SurveillanceId(squawk, altitude) =>
      m.(squawk := Observed(StoredCode(squawk), m.squawk, stamp),
         altitude := Observed(Altitude(altitude), m.altitude, stamp))
    case AirToAir(altitude) => m.(altitude := Observed(Altitude(altitude), m.altitude, stamp))
    case AllCallReply => m
  }

  // ---------------------------------------------------------------- the round trip of one line

  lemma DigitsArePlain(s: string, base: nat)
    requires AllDigits(s, base)
    ensures PlainText(s)
  {
  }

  lemma IntegersArePlain(n: int)
    ensures PlainText(SignedDecimal(n))
  {
    hide Decimal;
    DigitsArePlain(Decimal(if n < 0 then 0 - n else n), 10);
  }

  lemma PlainConcat(a: string, b: string)
    requires PlainText(a) && PlainText(b)
    ensures PlainText(a + b)
  {
  }

  lemma FixedIsPlain(x: Fixed)
    ensures PlainText(PrintFixed(x))
  {
    hide WholePart, FractionPart, PlainText, AllDigits;
    var whole, fraction := WholePart(x.scaled, x.places), FractionPart(x.scaled, x.places);
    DigitsArePlain(whole, 10);
    DigitsArePlain(fraction, 10);
    SignsArePlain();
    PlainConcat(".", fraction);
    PlainConcat(whole, if x.places == 0 then "" else "." + fraction);
    PlainConcat("-", PrintUnsigned(x.scaled, x.places));
  }

  lemma SignsArePlain()
    ensures PlainText("") && PlainText(".") && PlainText("-")
  {
  }

  /** What is printed in a column, or left out of it, is plain text. */
  lemma NumbersArePlain(n: Option<int>, x: Option<Fixed>)
    ensures PlainText(PrintInteger(n)) && PlainText(PrintReal(x))
  {
    hide PlainText, SignedDecimal, PrintFixed;
    SignsArePlain();
    if n.Some? {
      IntegersArePlain(n.value);
    }
    if x.Some? {
      FixedIsPlain(x.value);
    }
  }

  lemma CodesArePlain(squawk: Option<nat>)
    requires IdentityCode(squawk)
    ensures PlainText(PrintCode(squawk))
  {
    if squawk.Some? {
      DigitsArePlain(PrintSquawk(squawk.value), 8);
    }
  }

  predicate AllPlain(fields: seq<string>) {
    forall i | 0 <= i < |fields| :: PlainText(fields[i])
  }

  lemma ContentIsPlain(c: Content, other: Columns)
    requires PrintableContent(c) && PlainColumns(other)
    ensures PlainColumns(PrintContent(c, other))
  {
    hide PlainText, PrintInteger, PrintReal, PrintCode;
    match c
    case AirbornePos(lat, lng, altitude) =>
      NumbersArePlain(altitude, lat);
      NumbersArePlain(altitude, lng);
    case AirborneVel(speed, track, vertRate) =>
      NumbersArePlain(vertRate, speed);
      NumbersArePlain(vertRate, track);
    case SurveillanceAlt(altitude) => NumbersArePlain(altitude, None);
    case SurveillanceId(squawk, altitude) =>
      NumbersArePlain(altitude, None);
      CodesArePlain(squawk);
    case AirToAir(altitude) => NumbersArePlain(altitude, None);
    case _ =>
  }

  lemma ColumnsArePlain(c: Columns)
    requires PlainColumns(c)
    ensures AllPlain(ColumnList(c))
  {
  }

  lemma HeaderIsPlain(w: Transmission)
    requires Printable(w)
    ensures AllPlain(PrintHeader(w))
  {
    DigitsArePlain(PrintAddress(w.address), 16);
    DigitsArePlain(Decimal(IdOf(w.content)), 10);
  }

  lemma FieldsArePlain(w: Transmission)
    requires Printable(w)
    ensures AllPlain(PrintFields(w))
  {
    HeaderIsPlain(w);
    ContentIsPlain(w.content, w.other);
    ColumnsArePlain(PrintContent(w.content, w.other));
    assert AllPlain(w.flags);
  }

  lemma SmallDecimal(n: nat)
    requires n < 10
    ensures StrtolValue(Decimal(n)) == n
  {
    var s := Decimal(n);
    assert s == [DigitChar(n)];
    assert s[..|s|] == s;
  }

  lemma AddressRoundTrip(a: nat)
    requires 1 <= a <= ICAO_ADDRESS_MAX
    ensures ToAddress(PrintAddress(a)) == Some(a)
  {
    AddressIsHexValue(PrintAddress(a));
  }

  lemma IntegerRoundTrip(n: Option<int>, lo: int, hi: int)
    requires lo <= hi
    ensures ClampedInteger(PrintInteger(n), lo, hi) == Clamped(n, lo, hi)
  {
  }

  lemma RealRoundTrip(x: Option<Fixed>, lo: real, hi: Option<real>)
    ensures ToDouble(PrintReal(x), lo, hi) == RangeChecked(x, lo, hi)
  {
    if x.Some? {
      hide PrintFixed, FixedValue, ParseReal;
      FixedRoundTrip(x.value);
    } else {
      NothingIsNoReal();
    }
  }

  lemma NothingIsNoReal()
    ensures ParseReal("") == None
  {
  }

  lemma CodeRoundTrip(squawk: Option<nat>)
    requires IdentityCode(squawk)
    ensures SquawkIn(PrintCode(squawk)) == StoredCode(squawk)
  {
    if squawk.Some? {
      SquawkRoundTrip(squawk.value);
    }
  }

  lemma PositionRoundTrip(w: Transmission, stamp: nat)
    requires Printable(w) && w.content.AirbornePos?
    ensures MessageOf(ID_AIRBORNE_POS, w.address, PrintContent(w.content, w.other), stamp) == Some(Received(w, stamp))
  {
    hide PlainText, PrintInteger, PrintReal, ToDouble, RangeChecked, ClampedInteger, Clamped;
    RealRoundTrip(w.content.lat, -90.0, Some(90.0));
    RealRoundTrip(w.content.lng, -180.0, Some(180.0));
    IntegerRoundTrip(w.content.altitude, 0, UINT32_MAX);
  }

  lemma VelocityRoundTrip(w: Transmission, stamp: nat)
    requires Printable(w) && w.content.AirborneVel?
    ensures MessageOf(ID_AIRBORNE_VEL, w.address, PrintContent(w.content, w.other), stamp) == Some(Received(w, stamp))
  {
    hide PlainText, PrintInteger, PrintReal, ToDouble, RangeChecked, ClampedInteger, Clamped;
    RealRoundTrip(w.content.speed, 0.0, None);
    RealRoundTrip(w.content.track, 0.0, Some(360.0));
    IntegerRoundTrip(w.content.vertRate, INT16_MIN, INT16_MAX);
  }

  lemma IdentityRoundTrip(w: Transmission, stamp: nat)
    requires Printable(w) && w.content.SurveillanceId?
    ensures MessageOf(ID_SURVEILLANCE_ID, w.address, PrintContent(w.content, w.other), stamp)
         == Some(Received(w, stamp))
  {
    hide PlainText, PrintInteger, PrintCode, SquawkIn, StoredCode, ClampedInteger, Clamped;
    IntegerRoundTrip(w.content.altitude, 0, UINT32_MAX);
    CodeRoundTrip(w.content.squawk);
  }

  lemma AltitudeOnlyRoundTrip(w: Transmission, altitude: Option<int>, stamp: nat)
    requires Printable(w) && (w.content == SurveillanceAlt(altitude) || w.content == AirToAir(altitude))
    ensures MessageOf(IdOf(w.content), w.address, PrintContent(w.content, w.other), stamp) == Some(Received(w, stamp))
  {
    hide PlainText, PrintInteger, ClampedInteger, Clamped;
    IntegerRoundTrip(altitude, 0, UINT32_MAX);
  }

  lemma ContentRoundTrip(w: Transmission, stamp: nat)
    requires Printable(w)
    ensures MessageOf(IdOf(w.content), w.address, PrintContent(w.content, w.other), stamp) == Some(Received(w, stamp))
  {
    hide PlainText;
    if w.content.AirbornePos? {
      PositionRoundTrip(w, stamp);
    } else if w.content.AirborneVel? {
      VelocityRoundTrip(w, stamp);
    } else if w.content.SurveillanceId? {
      IdentityRoundTrip(w, stamp);
    } else if w.content.SurveillanceAlt? || w.content.AirToAir? {
      AltitudeOnlyRoundTrip(w, w.content.altitude, stamp);
    }
  }

  lemma Concatenated(header: seq<string>, c: Columns, rest: seq<string>)
    requires |header| == 10
    ensures var data := header + (ColumnList(c) + rest);
            && data[FIELD_TYPE] == header[FIELD_TYPE] && data[FIELD_ID] == header[FIELD_ID]
            && data[FIELD_ADDRESS] == header[FIELD_ADDRESS] && ColumnsOf(data) == c
  {
    var list, data := ColumnList(c), header + (ColumnList(c) + rest);
    assert data[10] == list[0] && data[11] == list[1] && data[12] == list[2] && data[13] == list[3];
    assert data[14] == list[4] && data[15] == list[5] && data[16] == list[6] && data[17] == list[7];
  }

  lemma PrintedColumns(w: Transmission)
    requires Printable(w)
    ensures var data := PrintFields(w);
            && data[FIELD_TYPE] == "MSG" && data[FIELD_ID] == Decimal(IdOf(w.content))
            && data[FIELD_ADDRESS] == PrintAddress(w.address) && ColumnsOf(data) == PrintContent(w.content, w.other)
  {
    Concatenated(PrintHeader(w), PrintContent(w.content, w.other), w.flags);
  }

  lemma FieldsRoundTrip(w: Transmission, stamp: nat)
    requires Printable(w)
    ensures ParseFields(PrintFields(w), stamp) == Some(Received(w, stamp))
  {
    PrintedColumns(w);
    SmallDecimal(IdOf(w.content));
    AddressRoundTrip(w.address);
    ContentRoundTrip(w, stamp);
  }

  /** Parsing undoes printing: the line of a transmission is received as exactly what it reports. */
  lemma LineRoundTrip(w: Transmission, stamp: nat)
    requires Printable(w)
    ensures ParseLine(PrintLine(w), stamp) == Some(Received(w, stamp))
  {
    FieldsArePlain(w);
    JoinSplits(PrintFields(w), ',');
    FieldsRoundTrip(w, stamp);
  }

  lemma PrintedLineIsFree(w: Transmission)
    requires Printable(w)
    ensures PrintLine(w) != "" && Free(PrintLine(w), "\r\n")
  {
    FieldsArePlain(w);
    JoinFree(PrintFields(w), ',', "\r\n");
    assert PrintFields(w)[0] == "MSG";
  }

  lemma {:induction false} JoinFree(pieces: seq<string>, sep: char, seps: string)
    requires pieces != [] && sep !in seps && forall i | 0 <= i < |pieces| :: Free(pieces[i], seps)
    ensures Free(Join(pieces, sep), seps)
    ensures pieces[0] <= Join(pieces, sep)
  {
    if |pieces| > 1 {
      JoinFree(pieces[1..], sep, seps);
    }
  }
}
