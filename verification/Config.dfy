/** The node's settings as a JSON document (lib/ff_core/config.cpp): writing it, merging a
    document onto the live settings, and what may never be accepted. A JSON text is a tree
    whose members are named by `Key`; a string is what a C string holds, one character a
    byte. */
module Config {
  import opened MachineWords
  import Follow

  // ---- Documents ---------------------------------------------------------------------------

  /** The member names of the document, and any other a document may hold. */
  datatype Key =
    | Version | Node | Name | ListenOnly | Security | Passphrase
    | Rate | TargetLoad | MinIntervalMs | MaxIntervalMs | JitterFrac | DutyCyclePct
    | Peers | TimeoutMs | AnnounceIntervalMs | Msp | RadarIntervalMs | Gnss | RateHz
    | Radios | EspnowEnabled | LoraEnabled | LoraPowerDbm | LoraBand
    | Wifi | Ap | Ssid | Psk | ApPsk | Channel | Sim | Enabled
    | FollowBlock | TargetUid | EmitHz | PeerTimeoutMs | StatusGvarIndex | ConditionFlagsGvarIndex
    | RcLongChannel | RcLatChannel | RcVertChannel | TargetSpeedGvarIndex | AutothrottleEngageGvarIndex
    | AutothrottleEnableRcChannel | AutothrottleEnableMinThresholdUs | AutothrottleEnableMaxThresholdUs
    | SpeedCorrectionAccelCmS2 | OfsLongM | OfsLatM | OfsVertM | MinSepM | MinVSepM | MaxTargetDistM | MinAltM
    | MinCourseSpeed | HeadingDeg | MinTargetSpeedMps | MaxTargetSpeedMps | HeadingMode | TriggerMode | Debug
    | Other(name: string)

  datatype Json = Null | Bool(b: bool) | Int(n: int) | Real(r: real) | Text(s: string) | Object(fields: map<Key, Json>)

  predicate Has(j: Json, k: Key)
  {
    j.Object? && k in j.fields
  }

  function Get(j: Json, k: Key): (v: Json)
  {
    if Has(j, k) then j.fields[k] else Null
  }

  /** A number of the document in an integer field: 0 if it does not fit. */
  function AsInt(j: Json, lo: int, hi: int): (n: int)
    requires lo <= 0 && 1 <= hi
    ensures lo <= n <= hi
  {
    var n := match j
      case Int(n) => n
      case Real(r) => if r >= 0.0 then r.Floor else -((-r).Floor)
      case Bool(b) => if b then 1 else 0
      case _ => 0;
    if lo <= n <= hi then n else 0
  }

  function AsReal(j: Json): (r: real)
  {
    match j
    case Int(n) => n as real
    case Real(r) => r
    case Bool(b) => if b then 1.0 else 0.0
    case _ => 0.0
  }

  function AsBool(j: Json): (b: bool)
  {
    match j
    case Null => false
    case Bool(b) => b
    case Int(n) => n != 0
    case Real(r) => r != 0.0
    case _ => true
  }

  function U8(j: Json): u8 { AsInt(j, 0, 0xFF) }
  function U16(j: Json): u16 { AsInt(j, 0, 0xFFFF) }
  function U32(j: Json): u32 { AsInt(j, 0, 0xFFFF_FFFF) }
  function I16(j: Json): i16 { AsInt(j, -0x8000, 0x7FFF) }

  // ---- Strings ------------------------------------------------------------------------------

  /** Eight bullets in UTF-8. */
  const PLACEHOLDER: string := "\U{E2}\U{80}\U{A2}\U{E2}\U{80}\U{A2}\U{E2}\U{80}\U{A2}\U{E2}\U{80}\U{A2}\U{E2}\U{80}\U{A2}\U{E2}\U{80}\U{A2}\U{E2}\U{80}\U{A2}\U{E2}\U{80}\U{A2}"

  /** Up to the terminating zero. */
  function CString(s: string): (t: string)
    ensures t <= s && '\0' !in t
    ensures '\0' !in s ==> t == s
  {
    if s == "" || s[0] == '\0' then "" else [s[0]] + CString(s[1..])
  }

  function CutTo(s: string, cap: nat): (t: string)
    ensures |t| <= cap && t <= s
  {
    if |s| <= cap then s else s[..cap]
  }

  /** A string of the document in a field of `cap` characters; anything else, and the
      placeholder, leaves the field alone. */
  function Copied(v: Json, field: string, cap: nat): (t: string)
  {
    if !v.Text? || CString(v.s) == PLACEHOLDER then field else CutTo(CString(v.s), cap)
  }

  // ---- Hexadecimal uids ------------------------------------------------------------------------

  function HexDigit(d: nat): (c: char)
    requires d < 16
    ensures HexValue(c) == d
  {
    if d < 10 then '0' + d as char else 'a' + (d - 10) as char
  }

  /** The value of a digit, 16 for what is none. */
  function HexValue(c: char): (d: nat)
    ensures d <= 16
  {
    if '0' <= c <= '9' then (c - '0') as nat
    else if 'a' <= c <= 'f' then (c - 'a') as nat + 10
    else if 'A' <= c <= 'F' then (c - 'A') as nat + 10
    else 16
  }

  /** The last `k` digits of `u`, as `%0kx` prints a number of at most k. */
  function Hex(u: nat, k: nat): (s: string)
    ensures |s| == k && forall i :: 0 <= i < k ==> HexValue(s[i]) < 16
  {
    if k == 0 then "" else Hex(u / 16, k - 1) + [HexDigit(u % 16)]
  }

  const ULONG_MAX: u32 := 0xFFFF_FFFF

  /** One more digit; a value that does not fit stays at the largest. */
  function Pushed(value: u32, d: nat): (v: u32)
    requires d < 16
  {
    if 16 * value + d <= ULONG_MAX then 16 * value + d else ULONG_MAX
  }

  /** The digits at the beginning of a string. */
  function Digits(s: string, value: u32): (v: u32)
  {
    if s == "" || HexValue(s[0]) == 16 then value else Digits(s[1..], Pushed(value, HexValue(s[0])))
  }

  predicate IsSpace(c: char)
  {
    c == ' ' || '\t' <= c <= '\r'
  }

  function SkipSpace(s: string): (t: string)
  {
    if s != "" && IsSpace(s[0]) then SkipSpace(s[1..]) else s
  }

  /** `strtoul(s, nullptr, 16)` with a 32-bit result. */
  function StrToUl(s: string): (v: u32)
  {
    var t := SkipSpace(s);
    var negative := t != "" && t[0] == '-';
    var u := if t != "" && (t[0] == '-' || t[0] == '+') then t[1..] else t;
    var w := if |u| > 2 && u[0] == '0' && (u[1] == 'x' || u[1] == 'X') && HexValue(u[2]) < 16 then u[2..] else u;
    var v := Digits(w, 0);
    if negative && v != ULONG_MAX then Sub32(0, v) else v
  }

  lemma {:induction false} DigitsMore(s: string, c: char, value: u32)
    requires HexValue(c) < 16 && forall i :: 0 <= i < |s| ==> HexValue(s[i]) < 16
    ensures Digits(s + [c], value) == Pushed(Digits(s, value), HexValue(c))
  {
    hide HexValue;
    if s == "" {
      assert s + [c] == [c];
    } else {
      assert (s + [c])[1..] == s[1..] + [c];
      DigitsMore(s[1..], c, Pushed(value, HexValue(s[0])));
    }
  }

  function Pow16(k: nat): (p: nat)
    ensures p > 0
  {
    if k == 0 then 1 else 16 * Pow16(k - 1)
  }

  lemma {:induction false} DigitsOfHex(u: u32, k: nat)
    requires u < Pow16(k)
    ensures Digits(Hex(u, k), 0) == u
  {
    hide HexValue, HexDigit;
    if k > 0 {
      DigitsOfHex(u / 16, k - 1);
      DigitsMore(Hex(u / 16, k - 1), HexDigit(u % 16), 0);
    }
  }

  /** Every 32-bit uid survives its eight digits. */
  lemma UidRoundTrip(u: u32)
    ensures StrToUl(Hex(u, 8)) == u
  {
    hide Hex, Digits;
    var s := Hex(u, 8);
    assert Pow16(8) == 0x1_0000_0000 by {
      assert Pow16(4) == 0x1_0000;
      assert Pow16(6) == 0x100_0000;
    }
    DigitsOfHex(u, 8);
    assert HexValue(s[0]) < 16 && HexValue(s[1]) < 16;
    assert HexValue(' ') == HexValue('-') == HexValue('+') == HexValue('x') == HexValue('X') == 16;
  }

  // ---- Settings ------------------------------------------------------------------------------------

  const MAX_NAME: nat := 15
  const MAX_PASSPHRASE: nat := 32
  const MAX_SSID: nat := 32
  const MAX_PSK: nat := 63

  datatype NodeSettings = NodeSettings(name: string, listenOnly: bool)

  datatype RateConfig = RateConfig(targetLoad: real, minInterval: u32, maxInterval: u32, jitter: real, dutyPct: u8)

  datatype RadioSettings = RadioSettings(espnow: bool, lora: bool, loraPower: i16, loraBand: u16)

  datatype WifiSettings = WifiSettings(ap: bool, ssid: string, psk: string, apPsk: string, channel: u8)

  datatype Settings = Settings(
    version: u16, node: NodeSettings, passphrase: string, rate: RateConfig,
    peerTimeout: u32, announceInterval: u32, radarInterval: u32, gnssRate: u16,
    radios: RadioSettings, wifi: WifiSettings, follow: Follow.Config, sim: bool)

  predicate FitsIn(s: string, cap: nat)
  {
    |s| <= cap && '\0' !in s
  }

  /** What the fixed buffers of the settings can hold at all. */
  predicate Holdable(s: Settings)
  {
    FitsIn(s.node.name, MAX_NAME) && FitsIn(s.passphrase, MAX_PASSPHRASE)
    && FitsIn(s.wifi.ssid, MAX_SSID) && FitsIn(s.wifi.psk, MAX_PSK) && FitsIn(s.wifi.apPsk, MAX_PSK)
  }

  predicate KnownBand(band: u16)
  {
    band in {0, 433, 868, 915, 2400}
  }

  predicate Valid(s: Settings)
  {
    && 0.0 < s.rate.targetLoad <= 1.0 && 0.0 <= s.rate.jitter < 1.0
    && 0 < s.rate.minInterval <= s.rate.maxInterval && s.rate.dutyPct <= 100
    && s.peerTimeout != 0 && s.announceInterval != 0 && s.radarInterval != 0
    && 1 <= s.gnssRate <= 25
    && (s.radios.espnow || s.radios.lora || s.sim)
    && 0 <= s.radios.loraPower <= 30 && KnownBand(s.radios.loraBand)
    && 1 <= s.wifi.channel <= 13
    && (!s.wifi.ap ==> s.wifi.ssid != "")
    && (s.wifi.apPsk != "" ==> |s.wifi.apPsk| >= 8)
    && Follow.ValidConfig(s.follow)
  }

  // ---- Writing the document ---------------------------------------------------------------------------

  function Secret(value: string, redact: bool): (v: Json)
  {
    if redact && value != "" then Text(PLACEHOLDER) else Text(value)
  }

  const HEADING_OFF := "OFF"
  const HEADING_COURSE := "COURSE"
  const HEADING_POINT_LEADER := "POINT_LEADER"
  const HEADING_FIXED := "FIXED"
  const HEADING_COURSE_RELATIVE := "COURSE_RELATIVE"

  function HeadingName(m: Follow.HeadingMode): (s: string)
  {
    match m
    case Off => HEADING_OFF
    case Course => HEADING_COURSE
    case PointLeader => HEADING_POINT_LEADER
    case FixedHeading => HEADING_FIXED
    case CourseRelative => HEADING_COURSE_RELATIVE
  }

  function FollowToJson(f: Follow.Config): (j: Json)
  {
    Object(map[
      EmitHz := Int(f.emitHz), PeerTimeoutMs := Int(f.peerTimeout),
      StatusGvarIndex := Int(f.statusGvar), ConditionFlagsGvarIndex := Int(f.conditionGvar),
      RcLongChannel := Int(f.rcLong), RcLatChannel := Int(f.rcLat), RcVertChannel := Int(f.rcVert),
      TargetSpeedGvarIndex := Int(f.speedGvar), AutothrottleEngageGvarIndex := Int(f.engageGvar),
      AutothrottleEnableRcChannel := Int(f.enableChannel), AutothrottleEnableMinThresholdUs := Int(f.enableMinUs),
      AutothrottleEnableMaxThresholdUs := Int(f.enableMaxUs), SpeedCorrectionAccelCmS2 := Int(f.accel),
      OfsLongM := Real(f.ofsLong), OfsLatM := Real(f.ofsLat), OfsVertM := Real(f.ofsVert),
      MinSepM := Real(f.minSep), MinVSepM := Real(f.minVSep), MaxTargetDistM := Real(f.maxTargetDist),
      MinAltM := Real(f.minAlt), MinCourseSpeed := Real(f.minCourseSpeed), HeadingDeg := Real(f.headingDeg),
      MinTargetSpeedMps := Real(f.minSpeed), MaxTargetSpeedMps := Real(f.maxSpeed),
      TargetUid := Text(Hex(f.targetUid, 8)),
      HeadingMode := Text(HeadingName(f.headingMode)),
      TriggerMode := Text("GCSNAV"),
      Debug := Bool(f.debug)])
  }

  function RateToJson(r: RateConfig): (j: Json)
  {
    Object(map[
      TargetLoad := Real(r.targetLoad), MinIntervalMs := Int(r.minInterval), MaxIntervalMs := Int(r.maxInterval),
      JitterFrac := Real(r.jitter), DutyCyclePct := Int(r.dutyPct)])
  }

  function RadiosToJson(r: RadioSettings): (j: Json)
  {
    Object(map[
      EspnowEnabled := Bool(r.espnow), LoraEnabled := Bool(r.lora),
      LoraPowerDbm := Int(r.loraPower), LoraBand := Int(r.loraBand)])
  }

  function WifiToJson(w: WifiSettings, redact: bool): (j: Json)
  {
    Object(map[
      Ap := Bool(w.ap), Ssid := Text(w.ssid), Psk := Secret(w.psk, redact), ApPsk := Secret(w.apPsk, redact),
      Channel := Int(w.channel)])
  }

  function ToJson(s: Settings, redact: bool): (j: Json)
  {
    Object(map[
      Version := Int(s.version),
      Node := Object(map[Name := Text(s.node.name), ListenOnly := Bool(s.node.listenOnly)]),
      Security := Object(map[Passphrase := Secret(s.passphrase, redact)]),
      Rate := RateToJson(s.rate),
      Peers := Object(map[TimeoutMs := Int(s.peerTimeout), AnnounceIntervalMs := Int(s.announceInterval)]),
      Msp := Object(map[RadarIntervalMs := Int(s.radarInterval)]),
      Gnss := Object(map[RateHz := Int(s.gnssRate)]),
      Radios := RadiosToJson(s.radios),
      Wifi := WifiToJson(s.wifi, redact),
      Sim := Object(map[Enabled := Bool(s.sim)]),
      FollowBlock := FollowToJson(s.follow)])
  }

  // ---- What merging a document means ------------------------------------------------------------------

  function Merged<T>(j: Json, k: Key, read: Json -> T, field: T): (v: T)
  {
    if Has(j, k) then read(Get(j, k)) else field
  }

  function MergedUid(j: Json, field: u32): (uid: u32)
  {
    if !Has(j, TargetUid) then field
    else
      var v := Get(j, TargetUid);
      if v.Text? then StrToUl(CString(v.s)) else U32(v)
  }

  function MergedHeading(j: Json, field: Follow.HeadingMode): (m: Follow.HeadingMode)
  {
    var v := Get(j, HeadingMode);
    if !v.Text? then field
    else if CString(v.s) == HeadingName(Follow.Off) then Follow.Off
    else if CString(v.s) == HeadingName(Follow.Course) then Follow.Course
    else if CString(v.s) == HeadingName(Follow.PointLeader) then Follow.PointLeader
    else if CString(v.s) == HeadingName(Follow.FixedHeading) then Follow.FixedHeading
    else if CString(v.s) == HeadingName(Follow.CourseRelative) then Follow.CourseRelative
    else field
  }

  function MergedFollow(j: Json, f: Follow.Config): (g: Follow.Config)
  {
    Follow.Config(
      Merged(j, OfsLongM, AsReal, f.ofsLong), Merged(j, OfsLatM, AsReal, f.ofsLat), Merged(j, OfsVertM, AsReal, f.ofsVert),
      MergedUid(j, f.targetUid), Merged(j, EmitHz, U16, f.emitHz), Merged(j, PeerTimeoutMs, U32, f.peerTimeout),
      Merged(j, MinSepM, AsReal, f.minSep), Merged(j, MinVSepM, AsReal, f.minVSep),
      Merged(j, MaxTargetDistM, AsReal, f.maxTargetDist), Merged(j, MinAltM, AsReal, f.minAlt),
      Merged(j, MinCourseSpeed, AsReal, f.minCourseSpeed),
      MergedHeading(j, f.headingMode), Merged(j, HeadingDeg, AsReal, f.headingDeg),
      Merged(j, StatusGvarIndex, I16, f.statusGvar), Merged(j, ConditionFlagsGvarIndex, I16, f.conditionGvar),
      Merged(j, RcLongChannel, I16, f.rcLong), Merged(j, RcLatChannel, I16, f.rcLat), Merged(j, RcVertChannel, I16, f.rcVert),
      Merged(j, TargetSpeedGvarIndex, I16, f.speedGvar), Merged(j, AutothrottleEngageGvarIndex, I16, f.engageGvar),
      Merged(j, AutothrottleEnableRcChannel, I16, f.enableChannel),
      Merged(j, AutothrottleEnableMinThresholdUs, I16, f.enableMinUs),
      Merged(j, AutothrottleEnableMaxThresholdUs, I16, f.enableMaxUs),
      Merged(j, SpeedCorrectionAccelCmS2, I16, f.accel),
      Merged(j, MinTargetSpeedMps, AsReal, f.minSpeed), Merged(j, MaxTargetSpeedMps, AsReal, f.maxSpeed),
      Merged(j, Debug, AsBool, f.debug))
  }

  function MergedNode(j: Json, n: NodeSettings): (m: NodeSettings)
  {
    NodeSettings(Copied(Get(j, Name), n.name, MAX_NAME), Merged(j, ListenOnly, AsBool, n.listenOnly))
  }

  function MergedRate(j: Json, r: RateConfig): (m: RateConfig)
  {
    RateConfig(Merged(j, TargetLoad, AsReal, r.targetLoad), Merged(j, MinIntervalMs, U32, r.minInterval),
               Merged(j, MaxIntervalMs, U32, r.maxInterval), Merged(j, JitterFrac, AsReal, r.jitter),
               Merged(j, DutyCyclePct, U8, r.dutyPct))
  }

  function MergedRadios(j: Json, r: RadioSettings): (m: RadioSettings)
  {
    RadioSettings(Merged(j, EspnowEnabled, AsBool, r.espnow), Merged(j, LoraEnabled, AsBool, r.lora),
                  Merged(j, LoraPowerDbm, I16, r.loraPower), Merged(j, LoraBand, U16, r.loraBand))
  }

  function MergedWifi(j: Json, w: WifiSettings): (m: WifiSettings)
  {
    WifiSettings(Merged(j, Ap, AsBool, w.ap), Copied(Get(j, Ssid), w.ssid, MAX_SSID), Copied(Get(j, Psk), w.psk, MAX_PSK),
                 Copied(Get(j, ApPsk), w.apPsk, MAX_PSK), Merged(j, Channel, U8, w.channel))
  }

  /** The settings with a document laid over them; a section that is no object says
      nothing. */
  function MergedAll(j: Json, s: Settings): (m: Settings)
  {
    Settings(
      s.version,
      MergedNode(Get(j, Node), s.node),
      Copied(Get(Get(j, Security), Passphrase), s.passphrase, MAX_PASSPHRASE),
      MergedRate(Get(j, Rate), s.rate),
      Merged(Get(j, Peers), TimeoutMs, U32, s.peerTimeout),
      Merged(Get(j, Peers), AnnounceIntervalMs, U32, s.announceInterval),
      Merged(Get(j, Msp), RadarIntervalMs, U32, s.radarInterval),
      Merged(Get(j, Gnss), RateHz, U16, s.gnssRate),
      MergedRadios(Get(j, Radios), s.radios),
      MergedWifi(Get(j, Wifi), s.wifi),
      MergedFollow(Get(j, FollowBlock), s.follow),
      Merged(Get(j, Sim), Enabled, AsBool, s.sim))
  }

  // ---- Round trips --------------------------------------------------------------------------------------

  predicate NoPlaceholder(s: Settings)
  {
    s.node.name != PLACEHOLDER && s.passphrase != PLACEHOLDER && s.wifi.ssid != PLACEHOLDER
    && s.wifi.psk != PLACEHOLDER && s.wifi.apPsk != PLACEHOLDER
  }

  lemma CopiedText(s: string, field: string, cap: nat)
    requires FitsIn(s, cap)
    ensures Copied(Text(s), field, cap) == if s == PLACEHOLDER then field else s
  {}

  lemma CopiedSecret(s: string, field: string, cap: nat, redact: bool)
    requires FitsIn(s, cap)
    ensures Copied(Secret(s, redact), field, cap) == if s == PLACEHOLDER || (redact && s != "") then field else s
  {
    assert '\0' !in PLACEHOLDER;
  }

  lemma U16ReadsBack(n: u16)
    ensures U16(Int(n)) == n
  {}

  lemma U32ReadsBack(n: u32)
    ensures U32(Int(n)) == n
  {}

  lemma I16ReadsBack(n: i16)
    ensures I16(Int(n)) == n
  {}

  lemma HeadingReadsBack(m: Follow.HeadingMode, field: Follow.HeadingMode)
    ensures var s := HeadingName(m); '\0' !in s && MergedHeading(Object(map[HeadingMode := Text(s)]), field) == m
  {
    hide HeadingName;
    HeadingHasNoZero(m);
    HeadingNamesDiffer(m, Follow.Off);
    HeadingNamesDiffer(m, Follow.Course);
    HeadingNamesDiffer(m, Follow.PointLeader);
    HeadingNamesDiffer(m, Follow.FixedHeading);
  }

  lemma HeadingHasNoZero(m: Follow.HeadingMode)
    ensures '\0' !in HeadingName(m)
  {}

  lemma HeadingNamesDiffer(m: Follow.HeadingMode, n: Follow.HeadingMode)
    ensures m != n ==> HeadingName(m) != HeadingName(n)
  {
    HeadingLength(m);
    HeadingLength(n);
  }

  lemma HeadingLength(m: Follow.HeadingMode)
    ensures var s := HeadingName(m);
            match m
            case Off => |s| == 3
            case Course => |s| == 6
            case PointLeader => |s| == 12
            case FixedHeading => |s| == 5
            case CourseRelative => |s| == 15
  {}

  lemma FollowRoundTrip(f: Follow.Config, g: Follow.Config)
    ensures MergedFollow(FollowToJson(f), g) == f
  {
    hide FollowToJson, Merged, MergedUid, MergedHeading;
    UidOfDocument(f, g.targetUid);
    HeadingOfDocument(f, g.headingMode);
    DirectRoundTrip(f, g);
    RoundedRoundTrip(f, g);
  }

  lemma UidOfDocument(f: Follow.Config, field: u32)
    ensures MergedUid(FollowToJson(f), field) == f.targetUid
  {
    hide StrToUl, Hex, HeadingName;
    UidRoundTrip(f.targetUid);
    DigitsHaveNoZero(Hex(f.targetUid, 8));
  }

  lemma HeadingOfDocument(f: Follow.Config, field: Follow.HeadingMode)
    ensures MergedHeading(FollowToJson(f), field) == f.headingMode
  {
    hide Hex, HeadingName, CString;
    HeadingReadsBack(f.headingMode, field);
    assert Get(FollowToJson(f), HeadingMode) == Get(Object(map[HeadingMode := Text(HeadingName(f.headingMode))]), HeadingMode);
  }

  lemma DigitsHaveNoZero(s: string)
    requires forall i :: 0 <= i < |s| ==> HexValue(s[i]) < 16
    ensures CString(s) == s
  {
    assert '\0' !in s by {
      assert HexValue('\0') == 16;
    }
  }

  lemma DirectRoundTrip(f: Follow.Config, g: Follow.Config)
    ensures var j := FollowToJson(f);
            && Merged(j, EmitHz, U16, g.emitHz) == f.emitHz
            && Merged(j, PeerTimeoutMs, U32, g.peerTimeout) == f.peerTimeout
            && Merged(j, StatusGvarIndex, I16, g.statusGvar) == f.statusGvar
            && Merged(j, ConditionFlagsGvarIndex, I16, g.conditionGvar) == f.conditionGvar
            && Merged(j, RcLongChannel, I16, g.rcLong) == f.rcLong
            && Merged(j, RcLatChannel, I16, g.rcLat) == f.rcLat
            && Merged(j, RcVertChannel, I16, g.rcVert) == f.rcVert
            && Merged(j, TargetSpeedGvarIndex, I16, g.speedGvar) == f.speedGvar
            && Merged(j, AutothrottleEngageGvarIndex, I16, g.engageGvar) == f.engageGvar
            && Merged(j, AutothrottleEnableRcChannel, I16, g.enableChannel) == f.enableChannel
            && Merged(j, AutothrottleEnableMinThresholdUs, I16, g.enableMinUs) == f.enableMinUs
            && Merged(j, AutothrottleEnableMaxThresholdUs, I16, g.enableMaxUs) == f.enableMaxUs
            && Merged(j, SpeedCorrectionAccelCmS2, I16, g.accel) == f.accel
  {
    hide FollowToJson, U16, U32, I16;
    TimingWritten(f);
    GvarsWritten(f);
    ChannelsWritten(f);
    ThresholdsWritten(f);
    U16ReadsBack(f.emitHz);
    U32ReadsBack(f.peerTimeout);
    I16ReadsBack(f.statusGvar);
    I16ReadsBack(f.conditionGvar);
    I16ReadsBack(f.rcLong);
    I16ReadsBack(f.rcLat);
    I16ReadsBack(f.rcVert);
    I16ReadsBack(f.speedGvar);
    I16ReadsBack(f.engageGvar);
    I16ReadsBack(f.enableChannel);
    I16ReadsBack(f.enableMinUs);
    I16ReadsBack(f.enableMaxUs);
    I16ReadsBack(f.accel);
  }

  lemma TimingWritten(f: Follow.Config)
    ensures var j := FollowToJson(f);
            && Has(j, EmitHz) && Get(j, EmitHz) == Int(f.emitHz)
            && Has(j, PeerTimeoutMs) && Get(j, PeerTimeoutMs) == Int(f.peerTimeout)
  {
    hide Hex, HeadingName;
  }

  lemma GvarsWritten(f: Follow.Config)
    ensures var j := FollowToJson(f);
            && Has(j, StatusGvarIndex) && Get(j, StatusGvarIndex) == Int(f.statusGvar)
            && Has(j, ConditionFlagsGvarIndex) && Get(j, ConditionFlagsGvarIndex) == Int(f.conditionGvar)
            && Has(j, RcLongChannel) && Get(j, RcLongChannel) == Int(f.rcLong)
  {
    hide Hex, HeadingName;
  }

  lemma ChannelsWritten(f: Follow.Config)
    ensures var j := FollowToJson(f);
            && Has(j, RcLatChannel) && Get(j, RcLatChannel) == Int(f.rcLat)
            && Has(j, RcVertChannel) && Get(j, RcVertChannel) == Int(f.rcVert)
            && Has(j, TargetSpeedGvarIndex) && Get(j, TargetSpeedGvarIndex) == Int(f.speedGvar)
            && Has(j, AutothrottleEngageGvarIndex) && Get(j, AutothrottleEngageGvarIndex) == Int(f.engageGvar)
            && Has(j, AutothrottleEnableRcChannel) && Get(j, AutothrottleEnableRcChannel) == Int(f.enableChannel)
  {
    hide Hex, HeadingName;
  }

  lemma ThresholdsWritten(f: Follow.Config)
    ensures var j := FollowToJson(f);
            && Has(j, AutothrottleEnableMinThresholdUs) && Get(j, AutothrottleEnableMinThresholdUs) == Int(f.enableMinUs)
            && Has(j, AutothrottleEnableMaxThresholdUs) && Get(j, AutothrottleEnableMaxThresholdUs) == Int(f.enableMaxUs)
            && Has(j, SpeedCorrectionAccelCmS2) && Get(j, SpeedCorrectionAccelCmS2) == Int(f.accel)
  {
    hide Hex, HeadingName;
  }

  lemma OffsetWritten(f: Follow.Config)
    ensures var j := FollowToJson(f);
            && Has(j, OfsLongM) && Get(j, OfsLongM) == Real(f.ofsLong)
            && Has(j, OfsLatM) && Get(j, OfsLatM) == Real(f.ofsLat)
            && Has(j, OfsVertM) && Get(j, OfsVertM) == Real(f.ofsVert)
            && Has(j, MinSepM) && Get(j, MinSepM) == Real(f.minSep)
  {
    hide Hex, HeadingName;
  }

  lemma LimitsWritten(f: Follow.Config)
    ensures var j := FollowToJson(f);
            && Has(j, MinVSepM) && Get(j, MinVSepM) == Real(f.minVSep)
            && Has(j, MaxTargetDistM) && Get(j, MaxTargetDistM) == Real(f.maxTargetDist)
            && Has(j, MinAltM) && Get(j, MinAltM) == Real(f.minAlt)
            && Has(j, MinCourseSpeed) && Get(j, MinCourseSpeed) == Real(f.minCourseSpeed)
  {
    hide Hex, HeadingName;
  }

  lemma SpeedsWritten(f: Follow.Config)
    ensures var j := FollowToJson(f);
            && Has(j, HeadingDeg) && Get(j, HeadingDeg) == Real(f.headingDeg)
            && Has(j, MinTargetSpeedMps) && Get(j, MinTargetSpeedMps) == Real(f.minSpeed)
            && Has(j, MaxTargetSpeedMps) && Get(j, MaxTargetSpeedMps) == Real(f.maxSpeed)
  {
    hide Hex, HeadingName;
  }

  lemma DebugWritten(f: Follow.Config)
    ensures var j := FollowToJson(f); Has(j, Debug) && Get(j, Debug) == Bool(f.debug)
  {
    hide Hex, HeadingName;
  }

  lemma RoundedRoundTrip(f: Follow.Config, g: Follow.Config)
    ensures var j := FollowToJson(f);
            && Merged(j, OfsLongM, AsReal, g.ofsLong) == f.ofsLong
            && Merged(j, OfsLatM, AsReal, g.ofsLat) == f.ofsLat
            && Merged(j, OfsVertM, AsReal, g.ofsVert) == f.ofsVert
            && Merged(j, MinSepM, AsReal, g.minSep) == f.minSep
            && Merged(j, MinVSepM, AsReal, g.minVSep) == f.minVSep
            && Merged(j, MaxTargetDistM, AsReal, g.maxTargetDist) == f.maxTargetDist
            && Merged(j, MinAltM, AsReal, g.minAlt) == f.minAlt
            && Merged(j, MinCourseSpeed, AsReal, g.minCourseSpeed) == f.minCourseSpeed
            && Merged(j, HeadingDeg, AsReal, g.headingDeg) == f.headingDeg
            && Merged(j, MinTargetSpeedMps, AsReal, g.minSpeed) == f.minSpeed
            && Merged(j, MaxTargetSpeedMps, AsReal, g.maxSpeed) == f.maxSpeed
            && Merged(j, Debug, AsBool, g.debug) == f.debug
  {
    hide FollowToJson;
    OffsetWritten(f);
    LimitsWritten(f);
    SpeedsWritten(f);
    DebugWritten(f);
  }

  lemma RatesRoundTrip(r: RateConfig, q: RateConfig)
    ensures MergedRate(RateToJson(r), q) == r
  {}

  lemma RadiosRoundTrip(r: RadioSettings, q: RadioSettings)
    ensures MergedRadios(RadiosToJson(r), q) == r
  {}

  lemma WifiRoundTrip(w: WifiSettings, q: WifiSettings, redact: bool)
    requires FitsIn(w.ssid, MAX_SSID) && FitsIn(w.psk, MAX_PSK) && FitsIn(w.apPsk, MAX_PSK)
    ensures MergedWifi(WifiToJson(w, redact), q)
         == w.(ssid := if w.ssid == PLACEHOLDER then q.ssid else w.ssid,
               psk := if w.psk == PLACEHOLDER || (redact && w.psk != "") then q.psk else w.psk,
               apPsk := if w.apPsk == PLACEHOLDER || (redact && w.apPsk != "") then q.apPsk else w.apPsk)
  {
    hide Copied, Secret;
    CopiedText(w.ssid, q.ssid, MAX_SSID);
    CopiedSecret(w.psk, q.psk, MAX_PSK, redact);
    CopiedSecret(w.apPsk, q.apPsk, MAX_PSK, redact);
  }

  /** What the document of `s` makes of any other settings: everything but the version, and
      but what the placeholder stands for. */
  lemma MergeOfDocument(s: Settings, t: Settings, redact: bool)
    requires Holdable(s)
    ensures MergedAll(ToJson(s, redact), t)
         == s.(version := t.version,
               node := s.node.(name := if s.node.name == PLACEHOLDER then t.node.name else s.node.name),
               passphrase := if s.passphrase == PLACEHOLDER || (redact && s.passphrase != "") then t.passphrase else s.passphrase,
               wifi := MergedWifi(WifiToJson(s.wifi, redact), t.wifi))
  {
    hide Copied, Secret, FollowToJson, MergedFollow, RateToJson, MergedRate, RadiosToJson, MergedRadios, WifiToJson,
         MergedWifi;
    FollowRoundTrip(s.follow, t.follow);
    RatesRoundTrip(s.rate, t.rate);
    RadiosRoundTrip(s.radios, t.radios);
    CopiedText(s.node.name, t.node.name, MAX_NAME);
    CopiedSecret(s.passphrase, t.passphrase, MAX_PASSPHRASE, redact);
    U32ReadsBack(s.peerTimeout);
    U32ReadsBack(s.announceInterval);
    U32ReadsBack(s.radarInterval);
    U16ReadsBack(s.gnssRate);
  }

  /** The document carries the settings whole, whatever it is merged onto, exactly when no
      string of theirs is the placeholder. */
  lemma RoundTripIffNoPlaceholder(s: Settings)
    requires Holdable(s)
    ensures NoPlaceholder(s) <==> forall t: Settings :: MergedAll(ToJson(s, false), t) == s.(version := t.version)
  {
    hide ToJson, MergedAll;
    forall t: Settings
      ensures NoPlaceholder(s) ==> MergedAll(ToJson(s, false), t) == s.(version := t.version)
    {
      MergeOfDocument(s, t, false);
      WifiRoundTrip(s.wifi, t.wifi, false);
    }
    if !NoPlaceholder(s) {
      var t := s.(node := s.node.(name := ""), passphrase := "", wifi := s.wifi.(ssid := "", psk := "", apPsk := ""));
      MergeOfDocument(s, t, false);
      WifiRoundTrip(s.wifi, t.wifi, false);
      assert MergedAll(ToJson(s, false), t) != s.(version := t.version);
    }
  }

  /** Posting back the redacted document changes nothing. */
  lemma RedactedMergeIsIdentity(s: Settings)
    requires Holdable(s)
    ensures MergedAll(ToJson(s, true), s) == s
  {
    hide ToJson, MergedAll;
    MergeOfDocument(s, s, true);
    WifiRoundTrip(s.wifi, s.wifi, true);
  }

  /** The redacted document tells of a secret only whether there is one. */
  lemma RedactedTellsNothing(s: Settings, passphrase: string, psk: string, apPsk: string)
    requires (passphrase == "") == (s.passphrase == "") && (psk == "") == (s.wifi.psk == "")
    requires (apPsk == "") == (s.wifi.apPsk == "")
    ensures ToJson(s.(passphrase := passphrase, wifi := s.wifi.(psk := psk, apPsk := apPsk)), true) == ToJson(s, true)
  {
    hide FollowToJson, RateToJson, RadiosToJson;
  }

  // ---- Merging -------------------------------------------------------------------------------------------

  lemma FollowMergesOnce(j: Json, f: Follow.Config)
    ensures MergedFollow(j, MergedFollow(j, f)) == MergedFollow(j, f)
  {
    hide StrToUl, CString, AsInt, AsReal, AsBool, U16, U32, I16;
  }

  lemma SectionsMergeOnce(j: Json, n: NodeSettings, r: RateConfig, q: RadioSettings, w: WifiSettings)
    ensures MergedNode(j, MergedNode(j, n)) == MergedNode(j, n) && MergedRate(j, MergedRate(j, r)) == MergedRate(j, r)
    ensures MergedRadios(j, MergedRadios(j, q)) == MergedRadios(j, q)
    ensures MergedWifi(j, MergedWifi(j, w)) == MergedWifi(j, w)
  {
    hide CString, AsInt, AsReal, AsBool, U8, U16, U32, I16;
  }

  /** Laying a document over settings twice is laying it once. */
  lemma MergeIsIdempotent(j: Json, s: Settings)
    ensures MergedAll(j, MergedAll(j, s)) == MergedAll(j, s)
  {
    hide MergedFollow, MergedNode, MergedRate, MergedRadios, MergedWifi, CString, AsInt, AsBool;
    FollowMergesOnce(Get(j, FollowBlock), s.follow);
    SectionsMergeOnce(Get(j, Node), s.node, s.rate, s.radios, s.wifi);
    SectionsMergeOnce(Get(j, Rate), s.node, s.rate, s.radios, s.wifi);
    SectionsMergeOnce(Get(j, Radios), s.node, s.rate, s.radios, s.wifi);
    SectionsMergeOnce(Get(j, Wifi), s.node, s.rate, s.radios, s.wifi);
  }

  /** What a document does not mention it does not touch: here the sections, and the
      secrets one by one. */
  lemma UnmentionedIsKept(j: Json, s: Settings)
    ensures var m := MergedAll(j, s);
            && m.version == s.version
            && (!Has(j, Node) ==> m.node == s.node)
            && (!Has(j, Security) || !Has(Get(j, Security), Passphrase) ==> m.passphrase == s.passphrase)
            && (!Has(j, Rate) ==> m.rate == s.rate)
            && (!Has(j, Radios) ==> m.radios == s.radios)
            && (!Has(j, Wifi) ==> m.wifi == s.wifi)
            && (!Has(Get(j, Wifi), Psk) ==> m.wifi.psk == s.wifi.psk)
            && (!Has(Get(j, Wifi), ApPsk) ==> m.wifi.apPsk == s.wifi.apPsk)
            && (!Has(Get(j, Wifi), Ssid) ==> m.wifi.ssid == s.wifi.ssid)
            && (!Has(j, FollowBlock) ==> m.follow == s.follow)
  {
    hide StrToUl, CString, AsInt, AsReal, AsBool, CutTo;
  }

  lemma MergeIsHoldable(j: Json, s: Settings)
    requires Holdable(s)
    ensures Holdable(MergedAll(j, s))
  {
    hide MergedFollow, MergedRate, MergedRadios, CString;
  }

  // ---- One document after another --------------------------------------------------------------

  /** A section of two documents in one: what the second mentions counts, and a section that
      is no object says nothing. */
  function Both(j: Json, k: Json): (both: Json)
  {
    if !k.Object? then j else if !j.Object? then k else Object(j.fields + k.fields)
  }

  const SECTIONS: set<Key> := {Node, Security, Rate, Peers, Msp, Gnss, Radios, Wifi, Sim, FollowBlock}

  function BothDocuments(j: Json, k: Json): (both: Json)
  {
    Object(map x: Key | x in SECTIONS :: Both(Get(j, x), Get(k, x)))
  }

  lemma SectionOfBoth(j: Json, k: Json, x: Key)
    requires x in SECTIONS
    ensures Get(BothDocuments(j, k), x) == Both(Get(j, x), Get(k, x))
  {
    hide Both;
  }

  lemma InBoth(j: Json, k: Json, key: Key)
    ensures Has(Both(j, k), key) <==> Has(j, key) || Has(k, key)
    ensures Get(Both(j, k), key) == if Has(k, key) then Get(k, key) else Get(j, key)
  {}

  lemma MergedInBoth<T>(j: Json, k: Json, key: Key, read: Json -> T, field: T)
    ensures Merged(k, key, read, Merged(j, key, read, field)) == Merged(Both(j, k), key, read, field)
  {
    InBoth(j, k, key);
  }

  /** The strings are the first exception: the placeholder, or anything that is no string,
      leaves the field alone. */
  predicate SaysText(k: Json, key: Key)
  {
    var v := Get(k, key);
    v.Text? && CString(v.s) != PLACEHOLDER
  }

  predicate TextsCompose(j: Json, k: Json, key: Key, field: string, cap: nat)
  {
    !Has(k, key) || SaysText(k, key) || Copied(Get(j, key), field, cap) == field
  }

  lemma TextInBoth(j: Json, k: Json, key: Key, field: string, cap: nat)
    ensures Copied(Get(k, key), Copied(Get(j, key), field, cap), cap) == Copied(Get(Both(j, k), key), field, cap)
            <==> TextsCompose(j, k, key, field, cap)
  {
    hide CString, CutTo;
    InBoth(j, k, key);
  }

  /** The heading mode is the other: a name that is not known leaves the mode alone. */
  predicate NamesHeading(k: Json)
  {
    var v := Get(k, HeadingMode);
    v.Text? && CString(v.s) in {HEADING_OFF, HEADING_COURSE, HEADING_POINT_LEADER, HEADING_FIXED, HEADING_COURSE_RELATIVE}
  }

  predicate HeadingsCompose(j: Json, k: Json, field: Follow.HeadingMode)
  {
    !Has(k, HeadingMode) || NamesHeading(k) || MergedHeading(j, field) == field
  }

  lemma HeadingInBoth(j: Json, k: Json, field: Follow.HeadingMode)
    ensures MergedHeading(k, MergedHeading(j, field)) == MergedHeading(Both(j, k), field) <==> HeadingsCompose(j, k, field)
  {
    hide CString;
    InBoth(j, k, HeadingMode);
  }

  lemma UidInBoth(j: Json, k: Json, field: u32)
    ensures MergedUid(k, MergedUid(j, field)) == MergedUid(Both(j, k), field)
  {
    hide StrToUl, CString, AsInt;
    InBoth(j, k, TargetUid);
  }

  lemma FollowInBoth(j: Json, k: Json, f: Follow.Config)
    ensures MergedFollow(k, MergedFollow(j, f)) == MergedFollow(Both(j, k), f) <==> HeadingsCompose(j, k, f.headingMode)
  {
    hide AsInt, AsReal, AsBool, MergedHeading, MergedUid, HeadingsCompose;
    HeadingInBoth(j, k, f.headingMode);
    UidInBoth(j, k, f.targetUid);
  }

  lemma NodeInBoth(j: Json, k: Json, n: NodeSettings)
    ensures MergedNode(k, MergedNode(j, n)) == MergedNode(Both(j, k), n) <==> TextsCompose(j, k, Name, n.name, MAX_NAME)
  {
    hide AsBool, Copied, TextsCompose, Merged;
    TextInBoth(j, k, Name, n.name, MAX_NAME);
    MergedInBoth(j, k, ListenOnly, AsBool, n.listenOnly);
  }

  lemma WifiInBoth(j: Json, k: Json, w: WifiSettings)
    ensures MergedWifi(k, MergedWifi(j, w)) == MergedWifi(Both(j, k), w)
            <==> TextsCompose(j, k, Ssid, w.ssid, MAX_SSID) && TextsCompose(j, k, Psk, w.psk, MAX_PSK)
                 && TextsCompose(j, k, ApPsk, w.apPsk, MAX_PSK)
  {
    hide AsBool, AsInt, Copied, TextsCompose, Merged;
    TextInBoth(j, k, Ssid, w.ssid, MAX_SSID);
    TextInBoth(j, k, Psk, w.psk, MAX_PSK);
    TextInBoth(j, k, ApPsk, w.apPsk, MAX_PSK);
    MergedInBoth(j, k, Ap, AsBool, w.ap);
    MergedInBoth(j, k, Channel, U8, w.channel);
  }

  lemma RatesInBoth(j: Json, k: Json, r: RateConfig, q: RadioSettings)
    ensures MergedRate(k, MergedRate(j, r)) == MergedRate(Both(j, k), r)
    ensures MergedRadios(k, MergedRadios(j, q)) == MergedRadios(Both(j, k), q)
  {
    hide AsBool, AsInt, AsReal;
  }

  /** What the second document must not do for the two to act as one. */
  predicate Composable(j: Json, k: Json, s: Settings)
  {
    && TextsCompose(Get(j, Node), Get(k, Node), Name, s.node.name, MAX_NAME)
    && TextsCompose(Get(j, Security), Get(k, Security), Passphrase, s.passphrase, MAX_PASSPHRASE)
    && TextsCompose(Get(j, Wifi), Get(k, Wifi), Ssid, s.wifi.ssid, MAX_SSID)
    && TextsCompose(Get(j, Wifi), Get(k, Wifi), Psk, s.wifi.psk, MAX_PSK)
    && TextsCompose(Get(j, Wifi), Get(k, Wifi), ApPsk, s.wifi.apPsk, MAX_PSK)
    && HeadingsCompose(Get(j, FollowBlock), Get(k, FollowBlock), s.follow.headingMode)
  }

  /** Whole documents merged one after the other do what both in one do, exactly unless the
      second mentions a string as the placeholder or no string, or a heading mode that is
      not known, which the first had changed: the change then survives. */
  lemma MergesCompose(j: Json, k: Json, s: Settings)
    ensures MergedAll(k, MergedAll(j, s)) == MergedAll(BothDocuments(j, k), s) <==> Composable(j, k, s)
  {
    hide Both, BothDocuments, Get, MergedFollow, MergedNode, MergedWifi, MergedRate, MergedRadios, Copied, Merged,
         TextsCompose, HeadingsCompose;
    SectionOfBoth(j, k, Node);
    SectionOfBoth(j, k, Security);
    SectionOfBoth(j, k, Rate);
    SectionOfBoth(j, k, Peers);
    SectionOfBoth(j, k, Msp);
    SectionOfBoth(j, k, Gnss);
    SectionOfBoth(j, k, Radios);
    SectionOfBoth(j, k, Wifi);
    SectionOfBoth(j, k, Sim);
    SectionOfBoth(j, k, FollowBlock);
    FollowInBoth(Get(j, FollowBlock), Get(k, FollowBlock), s.follow);
    NodeInBoth(Get(j, Node), Get(k, Node), s.node);
    WifiInBoth(Get(j, Wifi), Get(k, Wifi), s.wifi);
    RatesInBoth(Get(j, Rate), Get(k, Rate), s.rate, s.radios);
    RatesInBoth(Get(j, Radios), Get(k, Radios), s.rate, s.radios);
    TextInBoth(Get(j, Security), Get(k, Security), Passphrase, s.passphrase, MAX_PASSPHRASE);
    MergedInBoth(Get(j, Peers), Get(k, Peers), TimeoutMs, U32, s.peerTimeout);
    MergedInBoth(Get(j, Peers), Get(k, Peers), AnnounceIntervalMs, U32, s.announceInterval);
    MergedInBoth(Get(j, Msp), Get(k, Msp), RadarIntervalMs, U32, s.radarInterval);
    MergedInBoth(Get(j, Gnss), Get(k, Gnss), RateHz, U16, s.gnssRate);
    MergedInBoth(Get(j, Sim), Get(k, Sim), Enabled, AsBool, s.sim);
  }

  /** A document that turns the heading off, and one whose heading mode is empty: one after
      the other they turn it off, both in one they leave it as it was. */
  lemma MergesApart(s: Settings)
    requires s.follow.headingMode != Follow.Off
    ensures var j := Object(map[FollowBlock := Object(map[HeadingMode := Text(HEADING_OFF)])]);
            var k := Object(map[FollowBlock := Object(map[HeadingMode := Text("")])]);
            && MergedAll(k, MergedAll(j, s)).follow.headingMode == Follow.Off
            && MergedAll(BothDocuments(j, k), s).follow.headingMode == s.follow.headingMode
  {
    hide MergedAll, BothDocuments, MergedHeading;
    var turnOff, empty := Object(map[HeadingMode := Text(HEADING_OFF)]), Object(map[HeadingMode := Text("")]);
    var j, k := Object(map[FollowBlock := turnOff]), Object(map[FollowBlock := empty]);
    HeadingOf(j, s);
    HeadingOf(k, MergedAll(j, s));
    HeadingOf(BothDocuments(j, k), s);
    SectionOfBoth(j, k, FollowBlock);
    HeadingReadsBack(Follow.Off, s.follow.headingMode);
    EmptyHeading(turnOff, empty, s.follow.headingMode);
    EmptyHeading(turnOff, empty, Follow.Off);
  }

  lemma HeadingOf(j: Json, s: Settings)
    ensures MergedAll(j, s).follow.headingMode == MergedHeading(Get(j, FollowBlock), s.follow.headingMode)
  {
    hide MergedHeading, Merged, MergedUid, Copied;
  }

  lemma EmptyHeading(j: Json, empty: Json, field: Follow.HeadingMode)
    requires empty == Object(map[HeadingMode := Text("")])
    ensures MergedHeading(empty, field) == field && MergedHeading(Both(j, empty), field) == field
  {
    hide HeadingName;
    assert CString("") == "";
    HeadingIsNotEmpty(Follow.Off);
    HeadingIsNotEmpty(Follow.Course);
    HeadingIsNotEmpty(Follow.PointLeader);
    HeadingIsNotEmpty(Follow.FixedHeading);
    HeadingIsNotEmpty(Follow.CourseRelative);
  }

  lemma HeadingIsNotEmpty(m: Follow.HeadingMode)
    ensures HeadingName(m) != ""
  {}

  method MergeFollow(j: Json, f: Follow.Config) returns (g: Follow.Config)
    ensures g == MergedFollow(j, f)
  {
    hide Merged, MergedUid, MergedHeading;
    g := MergeDirect(j, f);
    g := MergeRounded(j, g);
    // the uid once more: it travels as eight digits
    g := g.(targetUid := MergedUid(j, g.targetUid));
    g := g.(debug := Merged(j, Debug, AsBool, g.debug));
    g := g.(headingMode := MergedHeading(j, g.headingMode));
    MergedTwice(j, f.targetUid);
  }

  lemma MergedTwice(j: Json, uid: u32)
    ensures MergedUid(j, Merged(j, TargetUid, U32, uid)) == MergedUid(j, uid)
  {}

  /** The fields that keep their type in the document. */
  method MergeDirect(j: Json, f: Follow.Config) returns (g: Follow.Config)
    ensures g == f.(targetUid := Merged(j, TargetUid, U32, f.targetUid),
                    emitHz := Merged(j, EmitHz, U16, f.emitHz),
                    peerTimeout := Merged(j, PeerTimeoutMs, U32, f.peerTimeout),
                    statusGvar := Merged(j, StatusGvarIndex, I16, f.statusGvar),
                    conditionGvar := Merged(j, ConditionFlagsGvarIndex, I16, f.conditionGvar),
                    rcLong := Merged(j, RcLongChannel, I16, f.rcLong),
                    rcLat := Merged(j, RcLatChannel, I16, f.rcLat),
                    rcVert := Merged(j, RcVertChannel, I16, f.rcVert),
                    speedGvar := Merged(j, TargetSpeedGvarIndex, I16, f.speedGvar),
                    engageGvar := Merged(j, AutothrottleEngageGvarIndex, I16, f.engageGvar),
                    enableChannel := Merged(j, AutothrottleEnableRcChannel, I16, f.enableChannel),
                    enableMinUs := Merged(j, AutothrottleEnableMinThresholdUs, I16, f.enableMinUs),
                    enableMaxUs := Merged(j, AutothrottleEnableMaxThresholdUs, I16, f.enableMaxUs),
                    accel := Merged(j, SpeedCorrectionAccelCmS2, I16, f.accel))
  {
    hide Merged;
    g := f;
    g := g.(targetUid := Merged(j, TargetUid, U32, g.targetUid));
    g := g.(emitHz := Merged(j, EmitHz, U16, g.emitHz));
    g := g.(peerTimeout := Merged(j, PeerTimeoutMs, U32, g.peerTimeout));
    g := g.(statusGvar := Merged(j, StatusGvarIndex, I16, g.statusGvar));
    g := g.(conditionGvar := Merged(j, ConditionFlagsGvarIndex, I16, g.conditionGvar));
    g := g.(rcLong := Merged(j, RcLongChannel, I16, g.rcLong));
    g := g.(rcLat := Merged(j, RcLatChannel, I16, g.rcLat));
    g := g.(rcVert := Merged(j, RcVertChannel, I16, g.rcVert));
    g := g.(speedGvar := Merged(j, TargetSpeedGvarIndex, I16, g.speedGvar));
    g := g.(engageGvar := Merged(j, AutothrottleEngageGvarIndex, I16, g.engageGvar));
    g := g.(enableChannel := Merged(j, AutothrottleEnableRcChannel, I16, g.enableChannel));
    g := g.(enableMinUs := Merged(j, AutothrottleEnableMinThresholdUs, I16, g.enableMinUs));
    g := g.(enableMaxUs := Merged(j, AutothrottleEnableMaxThresholdUs, I16, g.enableMaxUs));
    g := g.(accel := Merged(j, SpeedCorrectionAccelCmS2, I16, g.accel));
  }

  /** The fields that are real numbers. */
  method MergeRounded(j: Json, f: Follow.Config) returns (g: Follow.Config)
    ensures g == f.(ofsLong := Merged(j, OfsLongM, AsReal, f.ofsLong),
                    ofsLat := Merged(j, OfsLatM, AsReal, f.ofsLat),
                    ofsVert := Merged(j, OfsVertM, AsReal, f.ofsVert),
                    minSep := Merged(j, MinSepM, AsReal, f.minSep),
                    minVSep := Merged(j, MinVSepM, AsReal, f.minVSep),
                    maxTargetDist := Merged(j, MaxTargetDistM, AsReal, f.maxTargetDist),
                    minAlt := Merged(j, MinAltM, AsReal, f.minAlt),
                    minCourseSpeed := Merged(j, MinCourseSpeed, AsReal, f.minCourseSpeed),
                    headingDeg := Merged(j, HeadingDeg, AsReal, f.headingDeg),
                    minSpeed := Merged(j, MinTargetSpeedMps, AsReal, f.minSpeed),
                    maxSpeed := Merged(j, MaxTargetSpeedMps, AsReal, f.maxSpeed))
  {
    hide Merged;
    g := f;
    g := g.(ofsLong := Merged(j, OfsLongM, AsReal, g.ofsLong));
    g := g.(ofsLat := Merged(j, OfsLatM, AsReal, g.ofsLat));
    g := g.(ofsVert := Merged(j, OfsVertM, AsReal, g.ofsVert));
    g := g.(minSep := Merged(j, MinSepM, AsReal, g.minSep));
    g := g.(minVSep := Merged(j, MinVSepM, AsReal, g.minVSep));
    g := g.(maxTargetDist := Merged(j, MaxTargetDistM, AsReal, g.maxTargetDist));
    g := g.(minAlt := Merged(j, MinAltM, AsReal, g.minAlt));
    g := g.(minCourseSpeed := Merged(j, MinCourseSpeed, AsReal, g.minCourseSpeed));
    g := g.(headingDeg := Merged(j, HeadingDeg, AsReal, g.headingDeg));
    g := g.(minSpeed := Merged(j, MinTargetSpeedMps, AsReal, g.minSpeed));
    g := g.(maxSpeed := Merged(j, MaxTargetSpeedMps, AsReal, g.maxSpeed));
  }

  /** Merging works on a copy, which takes the place of the settings only if it is valid. */
  method ConfigMergeJson(j: Json, cfg: Settings) returns (ok: bool, after: Settings)
    ensures ok == Valid(MergedAll(j, cfg)) && after == if ok then MergedAll(j, cfg) else cfg
    ensures after == Changed(cfg, Merging(j))
  {
    hide Valid, MergedFollow, MergedNode, MergedRate, MergedRadios, MergedWifi, Copied, AsInt, AsReal, AsBool;
    var next := MergeSections(j, cfg);
    next := next.(peerTimeout := Merged(Get(j, Peers), TimeoutMs, U32, next.peerTimeout),
                  announceInterval := Merged(Get(j, Peers), AnnounceIntervalMs, U32, next.announceInterval),
                  radarInterval := Merged(Get(j, Msp), RadarIntervalMs, U32, next.radarInterval),
                  gnssRate := Merged(Get(j, Gnss), RateHz, U16, next.gnssRate),
                  sim := Merged(Get(j, Sim), Enabled, AsBool, next.sim));
    var follow := MergeFollow(Get(j, FollowBlock), next.follow);
    next := next.(follow := follow);
    ok := Valid(next);
    after := if ok then next else cfg;
  }

  /** The sections that hold strings, switches and radio parameters. */
  method MergeSections(j: Json, cfg: Settings) returns (next: Settings)
    ensures next == cfg.(
      node := MergedNode(Get(j, Node), cfg.node),
      passphrase := Copied(Get(Get(j, Security), Passphrase), cfg.passphrase, MAX_PASSPHRASE),
      rate := MergedRate(Get(j, Rate), cfg.rate),
      radios := MergedRadios(Get(j, Radios), cfg.radios),
      wifi := MergedWifi(Get(j, Wifi), cfg.wifi))
  {
    hide Copied, Merged;
    next := cfg;
    var node, rate, radios, wifi := Get(j, Node), Get(j, Rate), Get(j, Radios), Get(j, Wifi);
    next := next.(node := next.node.(name := Copied(Get(node, Name), next.node.name, MAX_NAME)));
    next := next.(node := next.node.(listenOnly := Merged(node, ListenOnly, AsBool, next.node.listenOnly)));
    next := next.(passphrase := Copied(Get(Get(j, Security), Passphrase), next.passphrase, MAX_PASSPHRASE));
    next := next.(rate := next.rate.(targetLoad := Merged(rate, TargetLoad, AsReal, next.rate.targetLoad)));
    next := next.(rate := next.rate.(minInterval := Merged(rate, MinIntervalMs, U32, next.rate.minInterval)));
    next := next.(rate := next.rate.(maxInterval := Merged(rate, MaxIntervalMs, U32, next.rate.maxInterval)));
    next := next.(rate := next.rate.(jitter := Merged(rate, JitterFrac, AsReal, next.rate.jitter)));
    next := next.(rate := next.rate.(dutyPct := Merged(rate, DutyCyclePct, U8, next.rate.dutyPct)));
    next := next.(radios := next.radios.(espnow := Merged(radios, EspnowEnabled, AsBool, next.radios.espnow)));
    next := next.(radios := next.radios.(lora := Merged(radios, LoraEnabled, AsBool, next.radios.lora)));
    next := next.(radios := next.radios.(loraPower := Merged(radios, LoraPowerDbm, I16, next.radios.loraPower)));
    next := next.(radios := next.radios.(loraBand := Merged(radios, LoraBand, U16, next.radios.loraBand)));
    next := next.(wifi := next.wifi.(ap := Merged(wifi, Ap, AsBool, next.wifi.ap)));
    next := next.(wifi := next.wifi.(ssid := Copied(Get(wifi, Ssid), next.wifi.ssid, MAX_SSID)));
    next := next.(wifi := next.wifi.(psk := Copied(Get(wifi, Psk), next.wifi.psk, MAX_PSK)));
    next := next.(wifi := next.wifi.(apPsk := Copied(Get(wifi, ApPsk), next.wifi.apPsk, MAX_PSK)));
    next := next.(wifi := next.wifi.(channel := Merged(wifi, Channel, U8, next.wifi.channel)));
  }

  // ---- Seeding and runs --------------------------------------------------------------------------------------

  /** A flashed string that is there and not empty, cut to its field. */
  function Seeded(flashed: Json, field: string, cap: nat): (t: string)
  {
    if !flashed.Text? || CString(flashed.s) == "" then field else CutTo(CString(flashed.s), cap)
  }

  /** What the image was flashed with; `Null` is an absent string. */
  method ConfigSeedFlashed(cfg: Settings, name: Json, passphrase: Json) returns (ok: bool, after: Settings)
    ensures var next := cfg.(node := cfg.node.(name := Seeded(name, cfg.node.name, MAX_NAME)),
                             passphrase := Seeded(passphrase, cfg.passphrase, MAX_PASSPHRASE));
            && ok == (Valid(next) && ((name.Text? && CString(name.s) != "") || (passphrase.Text? && CString(passphrase.s) != "")))
            && after == if ok then next else cfg
    ensures after == Changed(cfg, Seeding(name, passphrase))
  {
    hide Valid, CString;
    var next, changed := cfg, false;
    if name.Text? && CString(name.s) != "" {
      next := next.(node := next.node.(name := CutTo(CString(name.s), MAX_NAME)));
      changed := true;
    }
    if passphrase.Text? && CString(passphrase.s) != "" {
      next := next.(passphrase := CutTo(CString(passphrase.s), MAX_PASSPHRASE));
      changed := true;
    }
    ok := changed && Valid(next);
    after := if ok then next else cfg;
  }

  /** A configuration document that arrives, or the flashed strings of a first boot. */
  datatype Change = Merging(document: Json) | Seeding(name: Json, passphrase: Json)

  /** What the two methods leave. */
  function Changed(s: Settings, c: Change): (t: Settings)
  {
    var next := match c
      case Merging(j) => MergedAll(j, s)
      case Seeding(name, passphrase) =>
        s.(node := s.node.(name := Seeded(name, s.node.name, MAX_NAME)),
           passphrase := Seeded(passphrase, s.passphrase, MAX_PASSPHRASE));
    if Valid(next) then next else s
  }

  function ChangedBy(s: Settings, changes: seq<Change>): (t: Settings)
  {
    if changes == [] then s else Changed(ChangedBy(s, changes[..|changes| - 1]), changes[|changes| - 1])
  }

  /** Over any changes from valid settings, the settings stay valid, and every string in
      them fits its buffer. */
  lemma {:induction false} AlwaysValid(s: Settings, changes: seq<Change>)
    requires Valid(s) && Holdable(s)
    ensures Valid(ChangedBy(s, changes)) && Holdable(ChangedBy(s, changes))
  {
    hide Valid, MergedAll, CString;
    if changes != [] {
      var n := |changes| - 1;
      AlwaysValid(s, changes[..n]);
      var t := ChangedBy(s, changes[..n]);
      match changes[n]
      case Merging(j) => MergeIsHoldable(j, t);
      case Seeding(_, _) =>
    }
  }
}
