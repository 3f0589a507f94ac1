/**
 A simple account of what an accumulated record must hold, independent of how it was accumulated:
 for each field, the value carried by the last message that carried that field at all.
 */
module Replay {
  import opened Wrappers
  import opened Records
  import Units

  function LastCarried<T>(msgs: seq<AdsbRecord>, pick: AdsbRecord -> Field<T>, unset: Field<T>): Field<T> {
    if msgs == [] then unset
    else if pick(msgs[|msgs| - 1]).valid then pick(msgs[|msgs| - 1])
    else LastCarried(msgs[..|msgs| - 1], pick, unset)
  }

  function AltitudeOf(m: AdsbRecord): Field<nat> { m.altitude }
  function SpeedOf(m: AdsbRecord): Field<real> { m.speed }
  function HeadingOf(m: AdsbRecord): Field<real> { m.heading }
  function VertVelOf(m: AdsbRecord): Field<int> { m.vertVel }
  function SquawkOf(m: AdsbRecord): Field<nat> { m.squawk }

  /** The record of an aircraft from which exactly these messages were heard, last writer wins. */
  function ReplayOf(icao: nat, msgs: seq<AdsbRecord>): AdsbRecord {
    AdsbRecord(icao,
               LastCarried(msgs, CarriedCallsign, Field("", false, 0)),
               LastCarried(msgs, AltitudeOf, Field(0, false, 0)),
               LastCarried(msgs, SpeedOf, Field(0.0, false, 0)),
               LastCarried(msgs, HeadingOf, Field(0.0, false, 0)),
               None,
               LastCarried(msgs, VertVelOf, Field(0, false, 0)),
               LastCarried(msgs, SquawkOf, Field(0, false, 0)),
               if msgs == [] then 0 else msgs[|msgs| - 1].lastSeen)
  }

  /** Folding one more message into a replayed record replays one more message. */
  lemma ReplayExtends(icao: nat, msgs: seq<AdsbRecord>, msg: AdsbRecord)
    ensures ReplayOf(icao, msgs + [msg]) == FoldRecord(ReplayOf(icao, msgs), msg)
  {
    assert (msgs + [msg])[..|msgs|] == msgs;
  }

  // ---------------------------------------------------------------- freshness

  /** Every field a message carries is stamped with the message's own receive time. */
  predicate Stamped(m: AdsbRecord) {
    && (m.callsign.valid ==> m.callsign.time == m.lastSeen)
    && (m.altitude.valid ==> m.altitude.time == m.lastSeen)
    && (m.speed.valid ==> m.speed.time == m.lastSeen)
    && (m.heading.valid ==> m.heading.time == m.lastSeen)
    && (m.vertVel.valid ==> m.vertVel.time == m.lastSeen)
    && (m.squawk.valid ==> m.squawk.time == m.lastSeen)
  }

  predicate InOrder(msgs: seq<AdsbRecord>) {
    forall i, j | 0 <= i <= j < |msgs| :: msgs[i].lastSeen <= msgs[j].lastSeen
  }

  /** Some message carried the field, later than `window` before `asOf`. */
  ghost predicate CarriedWithin<T(!new)>(msgs: seq<AdsbRecord>, pick: AdsbRecord -> Field<T>, asOf: nat, window: nat) {
    exists i | 0 <= i < |msgs| :: pick(msgs[i]).valid && msgs[i].lastSeen > asOf - window
  }

  lemma {:induction false} FreshMeansCarried<T(!new)>(msgs: seq<AdsbRecord>, pick: AdsbRecord -> Field<T>,
                                                      unset: Field<T>, asOf: nat, window: nat)
    requires InOrder(msgs) && !unset.valid
    requires forall i | 0 <= i < |msgs| :: pick(msgs[i]).valid ==> pick(msgs[i]).time == msgs[i].lastSeen
    ensures Fresh(LastCarried(msgs, pick, unset), asOf, window) <==> CarriedWithin(msgs, pick, asOf, window)
  {
    if msgs != [] {
      var front, last := msgs[..|msgs| - 1], msgs[|msgs| - 1];
      if pick(last).valid {
        assert CarriedWithin(msgs, pick, asOf, window) ==> last.lastSeen > asOf - window;
        assert last.lastSeen > asOf - window ==> CarriedWithin(msgs, pick, asOf, window);
      } else {
        FreshMeansCarried(front, pick, unset, asOf, window);
        assert CarriedWithin(front, pick, asOf, window) ==> CarriedWithin(msgs, pick, asOf, window) by {
          if i :| 0 <= i < |front| && pick(front[i]).valid && front[i].lastSeen > asOf - window {
            assert msgs[i] == front[i];
          }
        }
        assert CarriedWithin(msgs, pick, asOf, window) ==> CarriedWithin(front, pick, asOf, window) by {
          if i :| 0 <= i < |msgs| && pick(msgs[i]).valid && msgs[i].lastSeen > asOf - window {
            assert front[i] == msgs[i];
          }
        }
      }
    }
  }

  /**
   What a flags word says: a motion bit, that a message less than a minute old carried that field;
   an identity bit, that a message less than five minutes old carried a squawk, or a callsign that
   is acceptable once trimmed.
   */
  ghost predicate FlagsSayRecent(flags: bv16, msgs: seq<AdsbRecord>, asOf: nat) {
    && HasBit(flags, 1)
    && (HasBit(flags, 2) <==>
        exists i | 0 <= i < |msgs| :: msgs[i].altitude.valid && msgs[i].lastSeen > asOf - 60000)
    && (HasBit(flags, 4) <==>
        exists i | 0 <= i < |msgs| :: msgs[i].heading.valid && msgs[i].lastSeen > asOf - 60000)
    && (HasBit(flags, 8) <==>
        exists i | 0 <= i < |msgs| :: msgs[i].speed.valid && msgs[i].lastSeen > asOf - 60000)
    && (HasBit(flags, 128) <==>
        exists i | 0 <= i < |msgs| :: msgs[i].vertVel.valid && msgs[i].lastSeen > asOf - 60000)
    && (HasBit(flags, 32) <==>
        exists i | 0 <= i < |msgs| :: msgs[i].squawk.valid && msgs[i].lastSeen > asOf - 300000)
    && (HasBit(flags, 16) <==>
        exists i | 0 <= i < |msgs| :: && msgs[i].callsign.valid && AcceptableCallsign(msgs[i].callsign.value)
                                      && msgs[i].lastSeen > asOf - 300000)
  }

  lemma FlagsMeanHeardRecently(icao: nat, msgs: seq<AdsbRecord>, asOf: nat)
    requires InOrder(msgs) && forall i | 0 <= i < |msgs| :: Stamped(msgs[i])
    ensures FlagsSayRecent(ReportFlags(ReplayOf(icao, msgs), asOf), msgs, asOf)
  {
    FlagsDecode(ReplayOf(icao, msgs), asOf);
    FreshMeansCarried(msgs, AltitudeOf, Field(0, false, 0), asOf, MOTION_FRESHNESS_MS);
    FreshMeansCarried(msgs, HeadingOf, Field(0.0, false, 0), asOf, MOTION_FRESHNESS_MS);
    FreshMeansCarried(msgs, SpeedOf, Field(0.0, false, 0), asOf, MOTION_FRESHNESS_MS);
    FreshMeansCarried(msgs, VertVelOf, Field(0, false, 0), asOf, MOTION_FRESHNESS_MS);
    FreshMeansCarried(msgs, SquawkOf, Field(0, false, 0), asOf, IDENTITY_FRESHNESS_MS);
    FreshMeansCarried(msgs, CarriedCallsign, Field("", false, 0), asOf, IDENTITY_FRESHNESS_MS);
  }

  // ---------------------------------------------------------------- what a report tells

  /** Message i is the last for which this holds. */
  ghost predicate LastWith(msgs: seq<AdsbRecord>, has: AdsbRecord -> bool, i: nat) {
    i < |msgs| && has(msgs[i]) && forall j | i < j < |msgs| :: !has(msgs[j])
  }

  predicate HasAltitude(m: AdsbRecord) { m.altitude.valid }
  predicate HasSpeed(m: AdsbRecord) { m.speed.valid }
  predicate HasHeading(m: AdsbRecord) { m.heading.valid }
  predicate HasVertVel(m: AdsbRecord) { m.vertVel.valid }
  predicate HasSquawk(m: AdsbRecord) { m.squawk.valid }

  /** A callsign that is 1 to 8 characters long without the spaces at its end. */
  predicate HasCallsign(m: AdsbRecord) {
    m.callsign.valid && 1 <= |TrimTrailingSpaces(m.callsign.value)| <= 8
  }

  /** The name is the text without the spaces at its end. */
  predicate NameIn(name: string, text: string) {
    && name <= text && AllSpaces(text[|name|..])
    && (name == "" || name[|name| - 1] != ' ')
  }

  /** The motion fields, in the units of the report: rounded, and saturated where the report has no room. */
  predicate HeadingFrom(p: PositionReport, m: AdsbRecord) {
    0.0 <= m.heading.value * 100.0 <= 65535.0 ==> Units.RoundsTo(m.heading.value * 100.0, p.heading)
  }

  predicate SpeedFrom(p: PositionReport, m: AdsbRecord) {
    var exact := m.speed.value * (1852.0 / 36.0);
    && (0.0 <= exact <= 65535.0 ==> Units.RoundsTo(exact, p.horVel))
    && (exact > 65535.0 ==> p.horVel == 65535)
  }

  predicate VertVelFrom(p: PositionReport, m: AdsbRecord) {
    -0x8000 <= m.vertVel.value <= 0x7FFF ==> Units.RoundsTo(m.vertVel.value as real * (30.48 / 60.0), p.verVel)
  }

  /**
   The values of a report are those of the last message that carried each field: the altitude and squawk
   as they are, the callsign without its padding, and the motion fields converted.
   */
  ghost predicate ReportTells(p: PositionReport, msgs: seq<AdsbRecord>) {
    && (forall i | 0 <= i < |msgs| && LastWith(msgs, HasAltitude, i) :: p.altitude == msgs[i].altitude.value)
    && (forall i | 0 <= i < |msgs| && LastWith(msgs, HasSquawk, i) :: p.squawk == msgs[i].squawk.value)
    && (forall i | 0 <= i < |msgs| && LastWith(msgs, HasCallsign, i) :: NameIn(p.callsign, msgs[i].callsign.value))
    && (forall i | 0 <= i < |msgs| && LastWith(msgs, HasHeading, i) :: HeadingFrom(p, msgs[i]))
    && (forall i | 0 <= i < |msgs| && LastWith(msgs, HasSpeed, i) :: SpeedFrom(p, msgs[i]))
    && (forall i | 0 <= i < |msgs| && LastWith(msgs, HasVertVel, i) :: VertVelFrom(p, msgs[i]))
  }

  lemma {:induction false} LastCarriedIs<T>(msgs: seq<AdsbRecord>, pick: AdsbRecord -> Field<T>, unset: Field<T>,
                                            has: AdsbRecord -> bool, i: nat)
    requires LastWith(msgs, has, i) && forall j | 0 <= j < |msgs| :: has(msgs[j]) <==> pick(msgs[j]).valid
    ensures LastCarried(msgs, pick, unset) == pick(msgs[i])
  {
    var front := msgs[..|msgs| - 1];
    if i < |front| {
      assert LastWith(front, has, i);
      LastCarriedIs(front, pick, unset, has, i);
    }
  }

  lemma AltitudeTold(icao: nat, msgs: seq<AdsbRecord>, i: nat)
    requires LastWith(msgs, HasAltitude, i)
    ensures ReplayOf(icao, msgs).altitude == msgs[i].altitude
  {
    LastCarriedIs(msgs, AltitudeOf, Field(0, false, 0), HasAltitude, i);
  }

  lemma SquawkTold(icao: nat, msgs: seq<AdsbRecord>, i: nat)
    requires LastWith(msgs, HasSquawk, i)
    ensures ReplayOf(icao, msgs).squawk == msgs[i].squawk
  {
    LastCarriedIs(msgs, SquawkOf, Field(0, false, 0), HasSquawk, i);
  }

  lemma CallsignTold(icao: nat, msgs: seq<AdsbRecord>, i: nat)
    requires LastWith(msgs, HasCallsign, i)
    ensures NameIn(ReplayOf(icao, msgs).callsign.value, msgs[i].callsign.value)
  {
    LastCarriedIs(msgs, CarriedCallsign, Field("", false, 0), HasCallsign, i);
    var text := msgs[i].callsign.value;
    var name := TrimTrailingSpaces(text);
    CallsignIsStored(EmptyRecord(icao), msgs[i], name, text[|name|..]);
    assert text == name + text[|name|..];
  }

  lemma HeadingTold(icao: nat, msgs: seq<AdsbRecord>, i: nat)
    requires LastWith(msgs, HasHeading, i)
    ensures ReplayOf(icao, msgs).heading == msgs[i].heading
  {
    LastCarriedIs(msgs, HeadingOf, Field(0.0, false, 0), HasHeading, i);
  }

  lemma SpeedTold(icao: nat, msgs: seq<AdsbRecord>, i: nat)
    requires LastWith(msgs, HasSpeed, i)
    ensures ReplayOf(icao, msgs).speed == msgs[i].speed
  {
    LastCarriedIs(msgs, SpeedOf, Field(0.0, false, 0), HasSpeed, i);
  }

  lemma VertVelTold(icao: nat, msgs: seq<AdsbRecord>, i: nat)
    requires LastWith(msgs, HasVertVel, i)
    ensures ReplayOf(icao, msgs).vertVel == msgs[i].vertVel
  {
    LastCarriedIs(msgs, VertVelOf, Field(0, false, 0), HasVertVel, i);
  }

  /** The conversions of a report, from a record and a message that agree on the motion fields. */
  lemma MotionConverted(r: AdsbRecord, msg: AdsbRecord, m: AdsbRecord)
    requires msg.position.Some?
    ensures var p := BuildReport(r, msg).value;
            && (r.heading == m.heading ==> HeadingFrom(p, m))
            && (r.speed == m.speed ==> SpeedFrom(p, m))
            && (r.vertVel == m.vertVel ==> VertVelFrom(p, m))
  {
    hide ReportFlags, Units.RoundsTo, Units.DegToCentideg, Units.KnotsToCmPerS, Units.FtPerMinToCmPerS;
    Units.HeadingConversion(r.heading.value, 0.0);
    Units.KnotsConversion(r.speed.value, 0.0);
    if -0x8000 <= r.vertVel.value <= 0x7FFF {
      Units.VerticalRateConversion(r.vertVel.value, 0);
    }
  }

  /** Every report tells what the messages it was built from carried last. */
  lemma ReportOfReplayTells(icao: nat, msgs: seq<AdsbRecord>, msg: AdsbRecord)
    requires msg.position.Some?
    ensures ReportTells(BuildReport(ReplayOf(icao, msgs), msg).value, msgs)
  {
    hide ReplayOf, LastWith, NameIn, ReportFlags, HeadingFrom, SpeedFrom, VertVelFrom;
    var r := ReplayOf(icao, msgs);
    var p := BuildReport(r, msg).value;
    forall i | 0 <= i < |msgs| && LastWith(msgs, HasAltitude, i) ensures p.altitude == msgs[i].altitude.value {
      AltitudeTold(icao, msgs, i);
    }
    forall i | 0 <= i < |msgs| && LastWith(msgs, HasSquawk, i) ensures p.squawk == msgs[i].squawk.value {
      SquawkTold(icao, msgs, i);
    }
    forall i | 0 <= i < |msgs| && LastWith(msgs, HasCallsign, i) ensures NameIn(p.callsign, msgs[i].callsign.value) {
      CallsignTold(icao, msgs, i);
    }
    forall i | 0 <= i < |msgs| && LastWith(msgs, HasHeading, i) ensures HeadingFrom(p, msgs[i]) {
      HeadingTold(icao, msgs, i);
      MotionConverted(r, msg, msgs[i]);
    }
    forall i | 0 <= i < |msgs| && LastWith(msgs, HasSpeed, i) ensures SpeedFrom(p, msgs[i]) {
      SpeedTold(icao, msgs, i);
      MotionConverted(r, msg, msgs[i]);
    }
    forall i | 0 <= i < |msgs| && LastWith(msgs, HasVertVel, i) ensures VertVelFrom(p, msgs[i]) {
      VertVelTold(icao, msgs, i);
      MotionConverted(r, msg, msgs[i]);
    }
  }
}
