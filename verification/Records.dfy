/**
 Per-aircraft records (src/dump1090.hpp) and the rules that fold messages into them and turn them
 into position reports (src/adsb_record.hpp).
 */
module Records {
  import opened Limits
  import opened Wrappers
  import Units

  /** One accumulated field: its value, whether it was ever set, and when it was observed. */
  datatype Field<T> = Field(value: T, valid: bool, time: nat)

  datatype Point = Point(latitude: real, longitude: real)

  /** The contents of one ADSBData object. */
  datatype AdsbRecord = AdsbRecord(
    icao: nat,
    callsign: Field<string>,
    altitude: Field<nat>,
    speed: Field<real>,
    heading: Field<real>,
    position: Option<Point>,
    vertVel: Field<int>,
    squawk: Field<nat>,
    lastSeen: nat)

  /** What the constructor of ADSBData leaves: every field unset. */
  function EmptyRecord(icao: nat): AdsbRecord {
    AdsbRecord(icao, Field("", false, 0), Field(0, false, 0), Field(0.0, false, 0), Field(0.0, false, 0),
               None, Field(0, false, 0), Field(0, false, 0), 0)
  }

  predicate IsStale(record: AdsbRecord, now: nat, window: nat) {
    now >= record.lastSeen && now - record.lastSeen >= window
  }

  // ---------------------------------------------------------------- folding a message

  const MAX_CALLSIGN_LENGTH := 8

  function TrimTrailingSpaces(s: string): (t: string)
    ensures t <= s
    ensures t == [] || t[|t| - 1] != ' '
    ensures forall i | |t| <= i < |s| :: s[i] == ' '
  {
    if s == [] || s[|s| - 1] != ' ' then s else TrimTrailingSpaces(s[..|s| - 1])
  }

  predicate AcceptableCallsign(s: string) {
    1 <= |TrimTrailingSpaces(s)| <= MAX_CALLSIGN_LENGTH
  }

  /** The callsign a message contributes: trimmed, and nothing at all when it is blank or too long. */
  function CarriedCallsign(msg: AdsbRecord): Field<string> {
    if msg.callsign.valid && AcceptableCallsign(msg.callsign.value)
    then msg.callsign.(value := TrimTrailingSpaces(msg.callsign.value))
    else Field("", false, 0)
  }

  function Overlay<T>(known: Field<T>, carried: Field<T>): Field<T> {
    if carried.valid then carried else known
  }

  /** update_record: only the fields the message carries are replaced. */
  function Updated(record: AdsbRecord, msg: AdsbRecord): AdsbRecord {
    record.(callsign := Overlay(record.callsign, CarriedCallsign(msg)),
            altitude := Overlay(record.altitude, msg.altitude),
            speed := Overlay(record.speed, msg.speed),
            heading := Overlay(record.heading, msg.heading),
            vertVel := Overlay(record.vertVel, msg.vertVel),
            squawk := Overlay(record.squawk, msg.squawk))
  }

  /** What aircraft_registry::fold does to the record of the message's aircraft. */
  function FoldRecord(record: AdsbRecord, msg: AdsbRecord): AdsbRecord {
    Updated(record.(lastSeen := msg.lastSeen), msg)
  }

  predicate AllSpaces(s: string) {
    forall i | 0 <= i < |s| :: s[i] == ' '
  }

  lemma {:induction false} TrimPadded(name: string, pad: string)
    requires (name == "" || name[|name| - 1] != ' ') && AllSpaces(pad)
    ensures TrimTrailingSpaces(name + pad) == name
  {
    if pad == "" {
      assert name + pad == name;
    } else {
      TrimPadded(name, pad[..|pad| - 1]);
      assert (name + pad)[..|name + pad| - 1] == name + pad[..|pad| - 1];
    }
  }

  /**
   A callsign arrives padded with spaces. One of 1 to 8 characters is stored without its padding, at
   the message's time; a blank or longer one leaves the record's callsign as it was.
   */
  lemma CallsignIsStored(record: AdsbRecord, msg: AdsbRecord, name: string, pad: string)
    requires msg.callsign.valid && msg.callsign.value == name + pad
    requires (name == "" || name[|name| - 1] != ' ') && AllSpaces(pad)
    ensures Updated(record, msg).callsign
         == if 1 <= |name| <= 8 then Field(name, true, msg.callsign.time) else record.callsign
  {
    TrimPadded(name, pad);
  }

  // ---------------------------------------------------------------- position reports

  const VALID_COORDS: bv16 := 1
  const VALID_ALTITUDE: bv16 := 2
  const VALID_HEADING: bv16 := 4
  const VALID_SPEED: bv16 := 8
  const VALID_CALLSIGN: bv16 := 16
  const VALID_SQUAWK: bv16 := 32
  const VALID_VERTVEL: bv16 := 128

  const MOTION_FRESHNESS_MS := 60 * 1000
  const IDENTITY_FRESHNESS_MS := 5 * 60 * 1000

  predicate FieldExpired(asOf: nat, observed: nat, window: nat) {
    asOf >= observed && asOf - observed >= window
  }

  /** Known, and not expired as of the given stamp. */
  predicate Fresh<T>(field: Field<T>, asOf: nat, window: nat) {
    field.valid && !FieldExpired(asOf, field.time, window)
  }

  function Bit(condition: bool, bit: bv16): bv16 {
    if condition then bit else 0
  }

  function ReportFlags(record: AdsbRecord, asOf: nat): bv16 {
    VALID_COORDS
    | Bit(Fresh(record.altitude, asOf, MOTION_FRESHNESS_MS), VALID_ALTITUDE)
    | Bit(Fresh(record.heading, asOf, MOTION_FRESHNESS_MS), VALID_HEADING)
    | Bit(Fresh(record.speed, asOf, MOTION_FRESHNESS_MS), VALID_SPEED)
    | Bit(Fresh(record.callsign, asOf, IDENTITY_FRESHNESS_MS), VALID_CALLSIGN)
    | Bit(Fresh(record.squawk, asOf, IDENTITY_FRESHNESS_MS), VALID_SQUAWK)
    | Bit(Fresh(record.vertVel, asOf, MOTION_FRESHNESS_MS), VALID_VERTVEL)
  }

  predicate HasBit(flags: bv16, bit: bv16) {
    flags & bit != 0
  }

  datatype PositionReport = PositionReport(
    position: Point,
    altitude: nat,
    heading: nat,
    horVel: nat,
    verVel: int,
    icao: nat,
    callsign: string,
    squawk: nat,
    flags: bv16)

  /** The report for a record, or nothing when the triggering message carried no position. */
  function BuildReport(record: AdsbRecord, msg: AdsbRecord): Option<PositionReport> {
    match msg.position
    case None => None
    case Some(position) =>
      Some(PositionReport(position, record.altitude.value,
                          Units.DegToCentideg(record.heading.value),
                          Units.KnotsToCmPerS(record.speed.value),
                          Units.FtPerMinToCmPerS(record.vertVel.value),
                          record.icao, record.callsign.value, record.squawk.value,
                          ReportFlags(record, msg.lastSeen)))
  }

  // ---------------------------------------------------------------- send-time stamps

  /** Time since last contact in whole seconds, clamped to one byte. */
  function DeriveTslc(received: nat, now: nat): nat {
    if now <= received then 0
    else if (now - received) / 1000 < UINT8_MAX then (now - received) / 1000 else UINT8_MAX
  }

  /** Wall time now, less the monotonic time the report has been on its way; never below zero. */
  function DeriveReportTimestamp(received: nat, nowMono: nat, nowWall: nat): nat {
    var elapsed := if nowMono > received then nowMono - received else 0;
    if elapsed <= nowWall then nowWall - elapsed else 0
  }

  /** A timestamp is never ahead of the clock, and behind it by the age of the report or as far as zero allows. */
  lemma TimestampIsAged(received: nat, nowMono: nat, nowWall: nat)
    ensures var t := DeriveReportTimestamp(received, nowMono, nowWall);
            && t <= nowWall && (nowMono <= received ==> t == nowWall)
            && (received <= nowMono ==> (t == 0 || t + (nowMono - received) == nowWall))
            && (t == 0 ==> nowWall <= nowMono - received || nowWall == 0)
  {
  }

  /** The two derivations agree: below the byte's limit, TSLC is the report's age in whole seconds. */
  lemma TslcMatchesTimestamp(received: nat, nowMono: nat, nowWall: nat)
    requires nowMono - received <= nowWall
    ensures var tslc, age := DeriveTslc(received, nowMono), nowWall - DeriveReportTimestamp(received, nowMono, nowWall);
            if tslc < UINT8_MAX then tslc * 1000 <= age < (tslc + 1) * 1000 else age >= UINT8_MAX * 1000
  {
  }

  /** The or of seven independent bits decodes bit by bit; the bits the protocol never uses stay clear. */
  lemma FlagsDecode(record: AdsbRecord, asOf: nat)
    ensures var flags := ReportFlags(record, asOf);
            && HasBit(flags, VALID_COORDS)
            && (HasBit(flags, VALID_ALTITUDE) <==> Fresh(record.altitude, asOf, MOTION_FRESHNESS_MS))
            && (HasBit(flags, VALID_HEADING) <==> Fresh(record.heading, asOf, MOTION_FRESHNESS_MS))
            && (HasBit(flags, VALID_SPEED) <==> Fresh(record.speed, asOf, MOTION_FRESHNESS_MS))
            && (HasBit(flags, VALID_CALLSIGN) <==> Fresh(record.callsign, asOf, IDENTITY_FRESHNESS_MS))
            && (HasBit(flags, VALID_SQUAWK) <==> Fresh(record.squawk, asOf, IDENTITY_FRESHNESS_MS))
            && (HasBit(flags, VALID_VERTVEL) <==> Fresh(record.vertVel, asOf, MOTION_FRESHNESS_MS))
            && flags & 0xFF40 == 0
  {
  }

  /** On an unchanged record the flags word only ever loses bits as time passes. */
  lemma FlagsOnlyShrink(record: AdsbRecord, earlier: nat, later: nat)
    requires earlier <= later
    ensures ReportFlags(record, later) & ReportFlags(record, earlier) == ReportFlags(record, later)
  {
    FlagsDecode(record, earlier);
    FlagsDecode(record, later);
  }

  // ---------------------------------------------------------------- the mutable object

  /** ADSBData: one aircraft's fields, updated in place by the setters. */
  class AdsbData {
    const icao: nat
    var callsign: Field<string>
    var altitude: Field<nat>
    var speed: Field<real>
    var heading: Field<real>
    var position: Option<Point>
    var vertVel: Field<int>
    var squawk: Field<nat>
    var lastSeen: nat

    function Value(): (r: AdsbRecord)
      reads this
    {
      AdsbRecord(icao, callsign, altitude, speed, heading, position, vertVel, squawk, lastSeen)
    }

    constructor (icao: nat)
      ensures Value() == EmptyRecord(icao)
    {
      this.icao := icao;
      callsign, altitude := Field("", false, 0), Field(0, false, 0);
      speed, heading := Field(0.0, false, 0), Field(0.0, false, 0);
      position, vertVel, squawk, lastSeen := None, Field(0, false, 0), Field(0, false, 0), 0;
    }

    /** The copy constructor. */
    constructor Copy(r: AdsbRecord)
      ensures Value() == r
    {
      icao := r.icao;
      callsign, altitude, speed, heading := r.callsign, r.altitude, r.speed, r.heading;
      position, vertVel, squawk, lastSeen := r.position, r.vertVel, r.squawk, r.lastSeen;
    }

    method SetCallsign(value: string, time: nat)
      modifies this
      ensures Value() == old(Value()).(callsign := Field(value, true, time))
    {
      callsign := Field(value, true, time);
    }

    method SetPosition(point: Point)
      modifies this
      ensures Value() == old(Value()).(position := Some(point))
    {
      position := Some(point);
    }

    method SetAltitude(value: nat, time: nat)
      modifies this
      ensures Value() == old(Value()).(altitude := Field(value, true, time))
    {
      altitude := Field(value, true, time);
    }

    method SetSpeed(value: real, time: nat)
      modifies this
      ensures Value() == old(Value()).(speed := Field(value, true, time))
    {
      speed := Field(value, true, time);
    }

    method SetHeading(value: real, time: nat)
      modifies this
      ensures Value() == old(Value()).(heading := Field(value, true, time))
    {
      heading := Field(value, true, time);
    }

    method SetVertVel(value: int, time: nat)
      modifies this
      ensures Value() == old(Value()).(vertVel := Field(value, true, time))
    {
      vertVel := Field(value, true, time);
    }

    method SetSquawk(value: nat, time: nat)
      modifies this
      ensures Value() == old(Value()).(squawk := Field(value, true, time))
    {
      squawk := Field(value, true, time);
    }

    method SetLastSeen(time: nat)
      modifies this
      ensures Value() == old(Value()).(lastSeen := time)
    {
      lastSeen := time;
    }
  }

  /** The callsign's part of update_record: the length is checked after trimming. */
  method UpdateCallsign(record: AdsbData, msg: AdsbData)
    modifies record
    ensures record.Value()
         == old(record.Value()).(callsign := Overlay(old(record.callsign), CarriedCallsign(old(msg.Value()))))
  {
    if msg.callsign.valid {
      var trimmed := TrimTrailingSpaces(msg.callsign.value);
      if trimmed != "" && |trimmed| <= MAX_CALLSIGN_LENGTH {
        record.SetCallsign(trimmed, msg.callsign.time);
      }
    }
  }

  /** update_record, field by field through the setters. */
  method UpdateRecord(record: AdsbData, msg: AdsbData)
    modifies record
    ensures record.Value() == Updated(old(record.Value()), old(msg.Value()))
  {
    UpdateCallsign(record, msg);
    if msg.altitude.valid {
      record.SetAltitude(msg.altitude.value, msg.altitude.time);
    }
    if msg.heading.valid {
      record.SetHeading(msg.heading.value, msg.heading.time);
    }
    if msg.speed.valid {
      record.SetSpeed(msg.speed.value, msg.speed.time);
    }
    if msg.vertVel.valid {
      record.SetVertVel(msg.vertVel.value, msg.vertVel.time);
    }
    if msg.squawk.valid {
      record.SetSquawk(msg.squawk.value, msg.squawk.time);
    }
  }
}
