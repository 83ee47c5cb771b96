/** What each edit of the display settings does, name by name and field by field, and where each field is stored. */
module DisplayEdits {
  import opened Bytes
  import opened Crc32
  import opened DisplaySettings

  // ----- patches

  function If(ok: bool, c: Config): Option<Config> {
    if ok then Some(c) else None
  }

  lemma SamePatch(c: Config, name: string, v: int, d: Config, ok: bool)
    requires Sane(c) && Named(Some(name)).Some? && ok == Allowed(Named(Some(name)).value, v)
    requires ok ==> forall f :: Value(d, f) == if f == Named(Some(name)).value then v else Value(c, f)
    ensures Patch(c, Some(name), v) == If(ok, d)
  {
    PatchExactly(c, Some(name), v);
    if ok { SameValues(Patch(c, Some(name), v).value, d); }
  }

  lemma TimeoutPatches(c: Config, v: u32)
    requires Sane(c)
    ensures Patch(c, Some("charge_timeout"), v) == If(v in {0, 15, 30, 60, 120, 300, 600}, c.(chargeTimeout := v))
    ensures Patch(c, Some("battery_timeout"), v) == If(v in {15, 30, 45, 60}, c.(batteryTimeout := v))
  {
    SamePatch(c, "charge_timeout", v, c.(chargeTimeout := v), v in {0, 15, 30, 60, 120, 300, 600});
    SamePatch(c, "battery_timeout", v, c.(batteryTimeout := v), v in {15, 30, 45, 60});
  }

  lemma BrightnessPatches(c: Config, v: byte)
    requires Sane(c)
    ensures Patch(c, Some("charge_brightness"), v) == If(10 <= v <= 100, c.(chargeBrightness := v))
    ensures Patch(c, Some("battery_brightness"), v) == If(10 <= v <= 100, c.(batteryBrightness := v))
    ensures Patch(c, Some("lock_brightness"), v) == If(v <= 100, c.(lockBrightness := v))
  {
    SamePatch(c, "charge_brightness", v, c.(chargeBrightness := v), 10 <= v <= 100);
    SamePatch(c, "battery_brightness", v, c.(batteryBrightness := v), 10 <= v <= 100);
    SamePatch(c, "lock_brightness", v, c.(lockBrightness := v), v <= 100);
  }

  lemma FlagPatches(c: Config, v: byte)
    requires Sane(c)
    ensures Patch(c, Some("smart_keepalive"), v) == If(v <= 1, c.(keepalive := v == 1))
    ensures Patch(c, Some("burn_in"), v) == If(v <= 1, c.(burnIn := v == 1))
  {
    SamePatch(c, "smart_keepalive", v, c.(keepalive := v == 1), v <= 1);
    SamePatch(c, "burn_in", v, c.(burnIn := v == 1), v <= 1);
  }

  lemma LockPatches(c: Config, v: byte)
    requires Sane(c)
    ensures Patch(c, Some("lock_wifi_minutes"), v) == If(v in {1, 2, 5, 10, 15, 30, 60}, c.(lockWifi := v))
    ensures Patch(c, Some("lock_ble_minutes"), v) == If(v in {1, 2, 5, 10, 15, 30, 60}, c.(lockBle := v))
  {
    SamePatch(c, "lock_wifi_minutes", v, c.(lockWifi := v), v in {1, 2, 5, 10, 15, 30, 60});
    SamePatch(c, "lock_ble_minutes", v, c.(lockBle := v), v in {1, 2, 5, 10, 15, 30, 60});
  }

  const NAMES := {"charge_timeout", "battery_timeout", "charge_brightness", "battery_brightness", "lock_brightness",
    "smart_keepalive", "burn_in", "lock_wifi_minutes", "lock_ble_minutes"}

  /** Nothing else can be patched, and no value that does not fit its field. */
  lemma OtherPatches(c: Config, name: Option<string>, v: int)
    requires Sane(c) && (name.None? || name.value !in NAMES || v < 0 || v > 600)
    ensures Patch(c, name, v) == None
  {
  }

  /** Without a stored configuration: a minute, full screens at 80, the lock screen at 8, intervals of 5 and 1. */
  lemma DefaultsAre()
    ensures var d := Defaults();
      && Sane(d) && d.chargeTimeout == d.batteryTimeout == 60 && d.chargeBrightness == d.batteryBrightness == 80
      && d.lockBrightness == 8 && d.burnIn && d.lockWifi == 5 && d.lockBle == 1 && d.keepalive
  {
    SanitizeExactly(Defaults());
  }

  // ----- edits

  /** A lease ends when its time is up or it has become unsafe, and only then; nothing of the base changes. */
  lemma ExpiryExactly(s: Settings, now: int, unsafe: bool)
    ensures var t := s.Expired(now, unsafe);
      && (t.Leased() <==> s.Leased() && !unsafe && now < s.leaseUntil)
      && t.Effective() == (if t.Leased() then s.overlay else s.config)
      && t.runtimeRevision == (if t.Leased() == s.Leased() then s.runtimeRevision else Up(s.runtimeRevision))
      && t == s.(leaseUntil := t.leaseUntil, runtimeRevision := t.runtimeRevision)
  {
  }

  /**
   A persistent edit ends any lease. If it changes the base, or repeats one whose write failed, it becomes the base
   with a new revision to be written from now on; otherwise it changes nothing else.
   */
  lemma RequestExactly(s: Settings, c: Config, now: int)
    requires Sane(s.config) && Sane(c)
    ensures var t := s.Requested(c, now); var counts := c != s.config || s.error != 0;
      && t.config == c && !t.Leased() && t.Effective() == c
      && t.revision == (if counts then Up(s.revision) else s.revision)
      && (if counts then t.pending && t.error == 0 && t.requestedAt == now
          else t.pending == s.pending && t.error == s.error && t.requestedAt == s.requestedAt)
      && t.savedRevision == s.savedRevision && t.attemptedRevision == s.attemptedRevision
      && (t.runtimeRevision == s.runtimeRevision <==> !counts && !s.Leased())
  {
    SanitizeExactly(c);
  }

  /** A persistent edit of one field starts from the base, not from an overlay. */
  lemma FieldEditExactly(s: Settings, name: Option<string>, v: int, now: int)
    requires Sane(s.config)
    ensures match Patch(s.config, name, v)
      case None => s.Persisted(name, v, now) == None
      case Some(c) => Sane(c) && s.Persisted(name, v, now) == Some(s.Requested(c, now))
  {
    PatchExactly(s.config, name, v);
  }

  /** A temporary edit starts from what is in effect now. */
  lemma TemporaryExactly(s: Settings, name: Option<string>, v: int, seconds: nat, now: int)
    requires Sane(s.config) && (s.Leased() ==> Sane(s.overlay)) && now >= 0
    ensures match s.Temporary(name, v, seconds, now)
      case None => seconds < 30 || seconds > 600 || Patch(s.Expired(now, false).Effective(), name, v) == None
      case Some(t) =>
        && Patch(s.Expired(now, false).Effective(), name, v) == Some(t.Effective())
        && t.leaseUntil == now + seconds * 1_000_000
  {
  }

  /** A write that comes back: a success is remembered; only that of the present revision settles the edit. */
  lemma CompletionExactly(s: Settings, written: u32, failure: int)
    ensures var t := s.Completed(written, failure);
      && t.savedRevision == (if failure == 0 then written else s.savedRevision)
      && (written == s.revision ==> !t.pending && t.error == failure)
      && (written != s.revision ==> t.pending == s.pending && t.error == s.error)
      && t == s.(savedRevision := t.savedRevision, pending := t.pending, error := t.error)
  {
  }

  // ----- the stored form

  predicate Shows(b: seq<byte>, c: Config) {
    && |b| == 24 && Get(b, 0, 4) == 0x4453504d && b[4] == 3
    && b[5] == (if c.burnIn then 1 else 0) && b[6] == c.chargeBrightness && b[7] == c.batteryBrightness
    && b[8] == c.lockBrightness && b[9] == c.lockWifi && b[10] == c.lockBle && b[11] == (if c.keepalive then 1 else 0)
    && Get(b, 12, 4) == c.chargeTimeout && Get(b, 16, 4) == c.batteryTimeout && Get(b, 20, 4) == Crc(b[..20])
  }

  /** Every field of a stored configuration stands at its place. */
  lemma FieldsStand(c: Config)
    ensures Shows(Encode(c), c)
  {
    BodyParts(c);
    Pow256Values();
    LERoundTrip(MAGIC, 4);
    LERoundTrip(c.chargeTimeout, 4);
    LERoundTrip(c.batteryTimeout, 4);
    LERoundTrip(Crc(Body(c)), 4);
  }

  /** What an older version stands for: what it stores, and the defaults of what it does not. */
  function Upgraded(c: Config, version: nat): Config {
    var d := if version < 3 then c.(keepalive := true) else c;
    if version < 2 then d.(lockWifi := 5, lockBle := 1) else d
  }

  /** The same fields in the form of a version: later fields are zero. */
  predicate ShowsOld(b: seq<byte>, c: Config, version: nat) {
    && |b| == 24 && Get(b, 0, 4) == 0x4453504d && b[4] == version
    && b[5] == (if c.burnIn then 1 else 0) && b[6] == c.chargeBrightness && b[7] == c.batteryBrightness
    && b[8] == c.lockBrightness && b[11] == 0
    && (if version == 1 then b[9] == 0 && b[10] == 0 else b[9] == c.lockWifi && b[10] == c.lockBle)
    && Get(b, 12, 4) == c.chargeTimeout && Get(b, 16, 4) == c.batteryTimeout && Get(b, 20, 4) == Crc(b[..20])
  }

  /** Both older versions are read, with the defaults of what they lack. */
  lemma OlderExactly(b: seq<byte>, c: Config, version: nat)
    requires (version == 1 || version == 2) && ShowsOld(b, c, version)
    ensures Decode(b) == if Sane(Upgraded(c, version)) then Some(Upgraded(c, version)) else None
  {
    assert Fields(b) == Upgraded(c, version);
    SanitizeExactly(Upgraded(c, version));
  }

  /** A blob in one of the three forms. */
  predicate InForm(b: seq<byte>, c: Config) {
    Shows(b, c) || (ShowsOld(b, c, 1) && Upgraded(c, 1) == c) || (ShowsOld(b, c, 2) && Upgraded(c, 2) == c)
  }

  lemma ShownIsRead(b: seq<byte>, c: Config)
    requires InForm(b, c) && Sane(c)
    ensures Decode(b) == Some(c)
  {
    SanitizeExactly(c);
    if Shows(b, c) { assert Fields(b) == c; }
    else if ShowsOld(b, c, 1) { OlderExactly(b, c, 1); }
    else { OlderExactly(b, c, 2); }
  }

  lemma ReadIsShown(b: seq<byte>)
    requires |b| == 24 && Decode(b).Some?
    ensures InForm(b, Decode(b).value) && Sane(Decode(b).value)
  {
    SanitizeExactly(Fields(b));
  }

  /** Exactly these are read: the present form and the two older ones, of permitted values. */
  lemma ReadExactly(b: seq<byte>, c: Config)
    requires |b| == 24
    ensures Decode(b) == Some(c) <==> InForm(b, c) && Sane(c)
  {
    if InForm(b, c) && Sane(c) { ShownIsRead(b, c); }
    if Decode(b) == Some(c) { ReadIsShown(b); }
  }
}
