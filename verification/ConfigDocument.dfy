/** What the settings document of lib/ff_core/config.cpp says, and how a change is refused. */
module ConfigDocument {
  import opened MachineWords
  import opened Config
  import Follow

  // ---- Where each setting stands ----------------------------------------------------------------

  /** What the document holds under a section and a name. */
  function At(j: Json, section: Key, name: Key): (v: Json)
  {
    Get(Get(j, section), name)
  }

  lemma SectionsOfDocument(s: Settings, redact: bool)
    ensures var j := ToJson(s, redact);
            && Get(j, Version) == Int(s.version)
            && Get(j, Rate) == RateToJson(s.rate) && Get(j, Radios) == RadiosToJson(s.radios)
            && Get(j, Wifi) == WifiToJson(s.wifi, redact) && Get(j, FollowBlock) == FollowToJson(s.follow)
  {
    hide RateToJson, RadiosToJson, WifiToJson, FollowToJson, Secret;
  }

  /** Each setting is written under its own name, in its own section. */
  lemma DocumentSays(s: Settings, redact: bool)
    ensures var j := ToJson(s, redact);
            && At(j, Node, Name) == Text(s.node.name) && At(j, Node, ListenOnly) == Bool(s.node.listenOnly)
            && At(j, Peers, TimeoutMs) == Int(s.peerTimeout) && At(j, Peers, AnnounceIntervalMs) == Int(s.announceInterval)
            && At(j, Msp, RadarIntervalMs) == Int(s.radarInterval) && At(j, Gnss, RateHz) == Int(s.gnssRate)
            && At(j, Sim, Enabled) == Bool(s.sim)
  {
    hide RateToJson, RadiosToJson, WifiToJson, FollowToJson, Secret;
  }

  lemma RateSays(s: Settings, redact: bool)
    ensures var j := ToJson(s, redact);
            && At(j, Rate, TargetLoad) == Real(s.rate.targetLoad) && At(j, Rate, JitterFrac) == Real(s.rate.jitter)
            && At(j, Rate, MinIntervalMs) == Int(s.rate.minInterval) && At(j, Rate, MaxIntervalMs) == Int(s.rate.maxInterval)
            && At(j, Rate, DutyCyclePct) == Int(s.rate.dutyPct)
  {
    hide ToJson;
    SectionsOfDocument(s, redact);
  }

  lemma RadioSays(s: Settings, redact: bool)
    ensures var j := ToJson(s, redact);
            && At(j, Radios, EspnowEnabled) == Bool(s.radios.espnow) && At(j, Radios, LoraEnabled) == Bool(s.radios.lora)
            && At(j, Radios, LoraPowerDbm) == Int(s.radios.loraPower) && At(j, Radios, LoraBand) == Int(s.radios.loraBand)
            && At(j, Wifi, Ap) == Bool(s.wifi.ap) && At(j, Wifi, Ssid) == Text(s.wifi.ssid)
            && At(j, Wifi, Channel) == Int(s.wifi.channel)
  {
    hide ToJson, Secret;
    SectionsOfDocument(s, redact);
  }

  /** The secrets are written as they are, or, redacted, as the placeholder if there are any. */
  lemma SecretsSay(s: Settings, redact: bool)
    ensures var j := ToJson(s, redact);
            && At(j, Security, Passphrase) == (if redact && s.passphrase != "" then Text(PLACEHOLDER) else Text(s.passphrase))
            && At(j, Wifi, Psk) == (if redact && s.wifi.psk != "" then Text(PLACEHOLDER) else Text(s.wifi.psk))
            && At(j, Wifi, ApPsk) == (if redact && s.wifi.apPsk != "" then Text(PLACEHOLDER) else Text(s.wifi.apPsk))
  {
    hide RateToJson, RadiosToJson, FollowToJson;
  }

  // ---- What numbers and strings of a document come to ------------------------------------------------

  /** A number in range is taken, cut off towards zero; any other counts as 0. */
  lemma NumbersRead(lo: int, hi: int, n: int, r: real)
    requires lo <= 0 && 1 <= hi
    ensures AsInt(Int(n), lo, hi) == if lo <= n <= hi then n else 0
    ensures var m := AsInt(Real(r), lo, hi);
            m != 0 ==> -1.0 < r - m as real < 1.0 && (r > 0.0 ==> m as real <= r) && (r < 0.0 ==> m as real >= r)
    ensures lo as real - 1.0 < r < hi as real + 1.0 && !(-1.0 < r < 1.0) ==> AsInt(Real(r), lo, hi) != 0
    ensures AsInt(Null, lo, hi) == AsInt(Text("7"), lo, hi) == 0 && AsInt(Bool(true), lo, hi) == 1
  {}

  /** A number or a switch stands for the other, and anything else for 0 or, as a switch, on. */
  lemma SwitchesRead(n: int, r: real, b: bool, s: string, m: map<Key, Json>)
    ensures AsReal(Int(n)) == n as real && AsReal(Real(r)) == r && AsReal(Bool(b)) == if b then 1.0 else 0.0
    ensures AsReal(Null) == AsReal(Text(s)) == AsReal(Object(m)) == 0.0
    ensures (AsBool(Int(n)) <==> n != 0) && (AsBool(Real(r)) <==> r != 0.0) && AsBool(Bool(b)) == b
    ensures !AsBool(Null) && AsBool(Text(s)) && AsBool(Object(m))
  {}

  /** A text goes into its field up to a zero and as far as it fits, but for the placeholder;
      nothing else touches the field. */
  lemma TextsRead(v: Json, field: string, cap: nat)
    ensures v.Text? && '\0' !in v.s && v.s != PLACEHOLDER && |v.s| <= cap ==> Copied(v, field, cap) == v.s
    ensures v.Text? && '\0' !in v.s && v.s != PLACEHOLDER && |v.s| > cap ==> Copied(v, field, cap) == v.s[..cap]
    ensures v == Text(PLACEHOLDER) || !v.Text? ==> Copied(v, field, cap) == field
  {}

  /** A number written in hexadecimal digits, most significant first. */
  function Positional(s: string): (n: nat)
    requires forall i :: 0 <= i < |s| ==> HexValue(s[i]) < 16
  {
    if s == "" then 0 else 16 * Positional(s[..|s| - 1]) + HexValue(s[|s| - 1])
  }

  lemma {:induction false} DigitsArePositional(s: string)
    requires |s| <= 8 && forall i :: 0 <= i < |s| ==> HexValue(s[i]) < 16
    ensures Positional(s) < Pow16(|s|) <= 0x1_0000_0000 && Digits(s, 0) == Positional(s)
  {
    hide HexValue, Digits;
    EightDigits(|s|);
    if s == "" {
      NoDigits();
    } else {
      var n := |s| - 1;
      DigitsArePositional(s[..n]);
      assert s == s[..n] + [s[n]];
      DigitsMore(s[..n], s[n], 0);
    }
  }

  lemma NoDigits()
    ensures Digits("", 0) == 0
  {}

  lemma {:induction false} EightDigits(k: nat)
    requires k <= 8
    ensures Pow16(k) <= 0x1_0000_0000
  {
    assert Pow16(4) == 0x1_0000;
    assert Pow16(6) == 0x100_0000;
    assert Pow16(8) == 0x1_0000_0000;
    assert Pow16(k) <= 0x1_0000_0000;
  }

  lemma HexDigitsOfBothCases()
    ensures HexValue('0') == 0 && HexValue('9') == 9 && HexValue('a') == HexValue('A') == 10
    ensures HexValue('f') == HexValue('F') == 15 && HexValue('g') == HexValue('G') == 16
  {}

  /** A uid of one to eight digits is read as the number they write, also behind spaces ... */
  lemma UidReads(s: string)
    requires 0 < |s| <= 8 && forall i :: 0 <= i < |s| ==> HexValue(s[i]) < 16
    ensures StrToUl(s) == StrToUl(" " + s) == Positional(s)
  {
    hide Digits, Positional;
    DigitsArePositional(s);
    assert HexValue(' ') == HexValue('-') == HexValue('+') == HexValue('x') == HexValue('X') == 16;
    NotASpace(s);
  }

  /** ... with or without a 0x in front ... */
  lemma PrefixedUidReads(s: string)
    requires 0 < |s| <= 8 && forall i :: 0 <= i < |s| ==> HexValue(s[i]) < 16
    ensures StrToUl("0x" + s) == Positional(s)
  {
    hide Digits, Positional, HexValue;
    DigitsArePositional(s);
    assert ("0x" + s)[2..] == s && ("0x" + s)[2] == s[0];
    NotASpace("0x" + s);
  }

  /** ... and as 0 where no digits are. */
  lemma NoUidReads(s: string)
    ensures StrToUl("") == StrToUl("x" + s) == 0
  {
    hide Digits;
    NoDigits();
    assert ("x" + s)[0] == 'x' && HexValue('x') == 16;
    NotASpace("x" + s);
    NotADigit("x" + s);
  }

  lemma NotASpace(s: string)
    requires s != "" && !IsSpace(s[0])
    ensures SkipSpace(s) == s && SkipSpace(" " + s) == s
  {
    assert (" " + s)[1..] == s;
  }

  lemma NotADigit(s: string)
    requires s != "" && HexValue(s[0]) == 16
    ensures Digits(s, 0) == 0
  {}

  // ---- Flashed strings ------------------------------------------------------------------------------

  /** A document that holds a name and a passphrase and nothing else. */
  function FlashedDocument(name: Json, passphrase: Json): (j: Json)
  {
    Object(map[Node := Object(map[Name := name]), Security := Object(map[Passphrase := passphrase])])
  }

  /** What may be flashed: nothing, or a text. */
  predicate Flashable(v: Json)
  {
    v == Null || (v.Text? && CString(v.s) != PLACEHOLDER)
  }

  /** The first boot of a flashed image leaves what merging its strings as a document would
      leave, but that an empty string counts as none. */
  lemma SeedingIsMerging(s: Settings, name: Json, passphrase: Json)
    requires Flashable(name) && Flashable(passphrase)
    ensures var n, p := if name == Null || CString(name.s) == "" then Null else name,
                        if passphrase == Null || CString(passphrase.s) == "" then Null else passphrase;
            Changed(s, Seeding(name, passphrase)) == Changed(s, Merging(FlashedDocument(n, p)))
  {
    hide Valid, CString, MergedFollow, MergedRate, MergedRadios, MergedWifi;
    var n, p := if name == Null || CString(name.s) == "" then Null else name,
                if passphrase == Null || CString(passphrase.s) == "" then Null else passphrase;
    NothingMerged(s);
    OtherSections(n, p);
  }

  lemma NothingMerged(s: Settings)
    ensures MergedRate(Null, s.rate) == s.rate && MergedRadios(Null, s.radios) == s.radios
    ensures MergedWifi(Null, s.wifi) == s.wifi && MergedFollow(Null, s.follow) == s.follow
  {}

  lemma OtherSections(n: Json, p: Json)
    ensures var j := FlashedDocument(n, p);
            && At(j, Node, Name) == n && At(j, Security, Passphrase) == p && !Has(Get(j, Node), ListenOnly)
            && Get(j, Rate) == Get(j, Peers) == Get(j, Msp) == Get(j, Gnss) == Null
            && Get(j, Radios) == Get(j, Wifi) == Get(j, Sim) == Get(j, FollowBlock) == Null
  {}

  // ---- Refusals ---------------------------------------------------------------------------------------

  /** The rules, in the order in which they are checked. */
  datatype Rule = Load | Jitter | NoInterval | CrossedIntervals | DutyCycle | PeerTimeout | AnnounceInterval
    | RadarInterval | GnssRate | NoRadio | LoraPower | LoraBandUnknown | WifiChannel | NoSsid | ShortKey | FollowRules

  predicate Broken(s: Settings, rule: Rule)
  {
    match rule
    case Load => s.rate.targetLoad <= 0.0 || s.rate.targetLoad > 1.0
    case Jitter => s.rate.jitter < 0.0 || s.rate.jitter >= 1.0
    case NoInterval => s.rate.minInterval == 0
    case CrossedIntervals => s.rate.maxInterval < s.rate.minInterval
    case DutyCycle => s.rate.dutyPct > 100
    case PeerTimeout => s.peerTimeout == 0
    case AnnounceInterval => s.announceInterval == 0
    case RadarInterval => s.radarInterval == 0
    case GnssRate => s.gnssRate == 0 || s.gnssRate > 25
    case NoRadio => !s.radios.espnow && !s.radios.lora && !s.sim
    case LoraPower => s.radios.loraPower < 0 || s.radios.loraPower > 30
    case LoraBandUnknown => s.radios.loraBand != 0 && s.radios.loraBand !in LORA_BANDS
    case WifiChannel => s.wifi.channel < 1 || s.wifi.channel > 13
    case NoSsid => !s.wifi.ap && s.wifi.ssid == ""
    case ShortKey => s.wifi.apPsk != "" && |s.wifi.apPsk| < 8
    case FollowRules => !Follow.ValidConfig(s.follow)
  }

  const LORA_BANDS: seq<u16> := [433, 868, 915, 2400]

  const RULES: seq<Rule> := [Load, Jitter, NoInterval, CrossedIntervals, DutyCycle, PeerTimeout, AnnounceInterval,
                             RadarInterval, GnssRate, NoRadio, LoraPower, LoraBandUnknown, WifiChannel, NoSsid, ShortKey,
                             FollowRules]

  datatype Verdict = Fine | Refused(rule: Rule)

  ghost predicate NoneBefore(s: Settings, k: nat)
  {
    k <= |RULES| && forall i :: 0 <= i < k ==> !Broken(s, RULES[i])
  }

  /** The verdict is the first rule broken, if any is. */
  ghost predicate Judges(s: Settings, v: Verdict)
  {
    match v
    case Fine => NoneBefore(s, |RULES|)
    case Refused(rule) => Broken(s, rule) && exists k: nat :: k < |RULES| && RULES[k] == rule && NoneBefore(s, k)
  }

  /** What each rule refuses. */
  lemma RateRules(s: Settings)
    ensures Broken(s, Load) <==> !(0.0 < s.rate.targetLoad <= 1.0)
    ensures Broken(s, Jitter) <==> !(0.0 <= s.rate.jitter < 1.0)
    ensures Broken(s, NoInterval) <==> s.rate.minInterval == 0
    ensures Broken(s, CrossedIntervals) <==> s.rate.maxInterval < s.rate.minInterval
    ensures Broken(s, DutyCycle) <==> s.rate.dutyPct > 100
  {}

  lemma TimingRules(s: Settings)
    ensures Broken(s, PeerTimeout) <==> s.peerTimeout == 0
    ensures Broken(s, AnnounceInterval) <==> s.announceInterval == 0
    ensures Broken(s, RadarInterval) <==> s.radarInterval == 0
    ensures Broken(s, GnssRate) <==> !(1 <= s.gnssRate <= 25)
  {}

  lemma RadioRules(s: Settings)
    ensures Broken(s, NoRadio) <==> !s.radios.espnow && !s.radios.lora && !s.sim
    ensures Broken(s, LoraPower) <==> !(0 <= s.radios.loraPower <= 30)
    ensures Broken(s, LoraBandUnknown) <==> !KnownBand(s.radios.loraBand)
    ensures KnownBand(s.radios.loraBand) <==> s.radios.loraBand == 0 || s.radios.loraBand in LORA_BANDS
  {
    BandsListed(s.radios.loraBand);
  }

  lemma OtherRules(s: Settings)
    ensures Broken(s, WifiChannel) <==> !(1 <= s.wifi.channel <= 13)
    ensures Broken(s, NoSsid) <==> !s.wifi.ap && s.wifi.ssid == ""
    ensures Broken(s, ShortKey) <==> s.wifi.apPsk != "" && |s.wifi.apPsk| < 8
    ensures Broken(s, FollowRules) <==> !Follow.ValidConfig(s.follow)
  {
    hide Follow.ValidConfig;
  }

  /** Settings are valid exactly if no rule is broken. */
  lemma ValidIffNoneBroken(s: Settings)
    ensures Valid(s) <==> forall rule: Rule :: !Broken(s, rule)
  {
    hide Follow.ValidConfig, Broken, KnownBand;
    RateRules(s);
    TimingRules(s);
    RadioRules(s);
    OtherRules(s);
    forall rule: Rule | Valid(s)
      ensures !Broken(s, rule)
    {
      PlaceIs(rule);
    }
  }

  lemma BandsListed(band: u16)
    ensures band in LORA_BANDS <==> band == 433 || band == 868 || band == 915 || band == 2400
  {}

  /** Where a rule stands in the order. */
  function Place(rule: Rule): (k: nat)
  {
    match rule
    case Load => 0
    case Jitter => 1
    case NoInterval => 2
    case CrossedIntervals => 3
    case DutyCycle => 4
    case PeerTimeout => 5
    case AnnounceInterval => 6
    case RadarInterval => 7
    case GnssRate => 8
    case NoRadio => 9
    case LoraPower => 10
    case LoraBandUnknown => 11
    case WifiChannel => 12
    case NoSsid => 13
    case ShortKey => 14
    case FollowRules => 15
  }

  lemma PlaceIs(rule: Rule)
    ensures Place(rule) < |RULES| && RULES[Place(rule)] == rule
  {}

  lemma Begin(s: Settings)
    ensures NoneBefore(s, Place(Load))
  {}

  lemma AllPassed(s: Settings)
    requires NoneBefore(s, |RULES|)
    ensures Judges(s, Fine) && Valid(s)
  {
    hide Broken, Valid;
    forall rule: Rule
      ensures !Broken(s, rule)
    {
      PlaceIs(rule);
      assert !Broken(s, RULES[Place(rule)]);
    }
    ValidIffNoneBroken(s);
  }

  lemma Passed(s: Settings, rule: Rule)
    requires NoneBefore(s, Place(rule)) && !Broken(s, rule)
    ensures NoneBefore(s, Place(rule) + 1)
  {
    hide Broken;
    PlaceIs(rule);
  }

  lemma Stopped(s: Settings, rule: Rule)
    requires NoneBefore(s, Place(rule)) && Broken(s, rule)
    ensures Judges(s, Refused(rule)) && !Valid(s)
  {
    hide Broken, Valid;
    PlaceIs(rule);
    ValidIffNoneBroken(s);
  }

  /** The checks of a change, one after the other, with the first one that fails as the reason. */
  method ConfigValidate(cfg: Settings) returns (v: Verdict)
    ensures Judges(cfg, v) && (v == Fine <==> Valid(cfg))
  {
    hide Valid, Judges, NoneBefore, Broken, KnownBand, Follow.ValidConfig;
    RateRules(cfg);
    TimingRules(cfg);
    RadioRules(cfg);
    OtherRules(cfg);
    Begin(cfg);
    if cfg.rate.targetLoad <= 0.0 || cfg.rate.targetLoad > 1.0 {
      Stopped(cfg, Load);
      return Refused(Load);
    }
    Passed(cfg, Load);
    if cfg.rate.jitter < 0.0 || cfg.rate.jitter >= 1.0 {
      Stopped(cfg, Jitter);
      return Refused(Jitter);
    }
    Passed(cfg, Jitter);
    if cfg.rate.minInterval == 0 {
      Stopped(cfg, NoInterval);
      return Refused(NoInterval);
    }
    Passed(cfg, NoInterval);
    if cfg.rate.maxInterval < cfg.rate.minInterval {
      Stopped(cfg, CrossedIntervals);
      return Refused(CrossedIntervals);
    }
    Passed(cfg, CrossedIntervals);
    if cfg.rate.dutyPct > 100 {
      Stopped(cfg, DutyCycle);
      return Refused(DutyCycle);
    }
    Passed(cfg, DutyCycle);
    if cfg.peerTimeout == 0 {
      Stopped(cfg, PeerTimeout);
      return Refused(PeerTimeout);
    }
    Passed(cfg, PeerTimeout);
    if cfg.announceInterval == 0 {
      Stopped(cfg, AnnounceInterval);
      return Refused(AnnounceInterval);
    }
    Passed(cfg, AnnounceInterval);
    if cfg.radarInterval == 0 {
      Stopped(cfg, RadarInterval);
      return Refused(RadarInterval);
    }
    Passed(cfg, RadarInterval);
    if cfg.gnssRate == 0 || cfg.gnssRate > 25 {
      Stopped(cfg, GnssRate);
      return Refused(GnssRate);
    }
    Passed(cfg, GnssRate);
    if !cfg.radios.espnow && !cfg.radios.lora && !cfg.sim {
      Stopped(cfg, NoRadio);
      return Refused(NoRadio);
    }
    Passed(cfg, NoRadio);
    if cfg.radios.loraPower < 0 || cfg.radios.loraPower > 30 {
      Stopped(cfg, LoraPower);
      return Refused(LoraPower);
    }
    Passed(cfg, LoraPower);
    var known := cfg.radios.loraBand == 0;
    for i := 0 to |LORA_BANDS|
      invariant known <==> cfg.radios.loraBand == 0 || cfg.radios.loraBand in LORA_BANDS[..i]
    {
      known := known || cfg.radios.loraBand == LORA_BANDS[i];
    }
    assert LORA_BANDS[..|LORA_BANDS|] == LORA_BANDS;
    if !known {
      Stopped(cfg, LoraBandUnknown);
      return Refused(LoraBandUnknown);
    }
    Passed(cfg, LoraBandUnknown);
    if cfg.wifi.channel < 1 || cfg.wifi.channel > 13 {
      Stopped(cfg, WifiChannel);
      return Refused(WifiChannel);
    }
    Passed(cfg, WifiChannel);
    if !cfg.wifi.ap && cfg.wifi.ssid == "" {
      Stopped(cfg, NoSsid);
      return Refused(NoSsid);
    }
    Passed(cfg, NoSsid);
    if cfg.wifi.apPsk != "" && |cfg.wifi.apPsk| < 8 {
      Stopped(cfg, ShortKey);
      return Refused(ShortKey);
    }
    Passed(cfg, ShortKey);
    if !Follow.ValidConfig(cfg.follow) {
      Stopped(cfg, FollowRules);
      return Refused(FollowRules);
    }
    Passed(cfg, FollowRules);
    AllPassed(cfg);
    return Fine;
  }
}
