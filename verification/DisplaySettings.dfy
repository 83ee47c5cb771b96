/** Display settings: their permitted values, the stored blob, and the leases and revisions kept in RAM. */
module DisplaySettings {
  import opened Bytes
  import opened Crc32

  const MAGIC := 0x4453504d
  const BLOB := 24
  const COVERED := 20
  const SECOND := 1_000_000
  const TWO32 := 0x1_0000_0000

  datatype Config = Config(
    chargeTimeout: u32, batteryTimeout: u32, chargeBrightness: byte, batteryBrightness: byte, lockBrightness: byte,
    burnIn: bool, lockWifi: byte, lockBle: byte, keepalive: bool)

  function Defaults(): Config {
    Config(60, 60, 80, 80, 8, true, 5, 1, true)
  }

  predicate LockMinutes(m: int) {
    m == 1 || m == 2 || m == 5 || m == 10 || m == 15 || m == 30 || m == 60
  }

  function Clamp(v: byte, low: byte, high: byte): byte {
    if v < low then low else if v > high then high else v
  }

  function Sanitize(c: Config): Config {
    var t, b := c.chargeTimeout, c.batteryTimeout;
    Config(
      if t != 0 && t != 15 && t != 30 && t != 60 && t != 120 && t != 300 && t != 600 then 60 else t,
      if b != 15 && b != 30 && b != 45 && b != 60 then 60 else b,
      Clamp(c.chargeBrightness, 10, 100), Clamp(c.batteryBrightness, 10, 100),
      if c.lockBrightness > 100 then 100 else c.lockBrightness,
      c.burnIn,
      if LockMinutes(c.lockWifi) then c.lockWifi else 5,
      if LockMinutes(c.lockBle) then c.lockBle else 1,
      c.keepalive)
  }

  datatype Field =
    | ChargeTimeout | BatteryTimeout | ChargeBrightness | BatteryBrightness | LockBrightness
    | Keepalive | BurnIn | LockWifi | LockBle

  /** The field a name stands for; a missing name is refused like an unknown one. */
  function Named(name: Option<string>): Option<Field> {
    if name.None? then None
    else if name.value == "charge_timeout" then Some(ChargeTimeout)
    else if name.value == "battery_timeout" then Some(BatteryTimeout)
    else if name.value == "charge_brightness" then Some(ChargeBrightness)
    else if name.value == "battery_brightness" then Some(BatteryBrightness)
    else if name.value == "lock_brightness" then Some(LockBrightness)
    else if name.value == "smart_keepalive" then Some(Keepalive)
    else if name.value == "burn_in" then Some(BurnIn)
    else if name.value == "lock_wifi_minutes" then Some(LockWifi)
    else if name.value == "lock_ble_minutes" then Some(LockBle)
    else None
  }

  /** What a patch may set each field to. */
  predicate Allowed(field: Field, v: int) {
    match field
    case ChargeTimeout => v in {0, 15, 30, 60, 120, 300, 600}
    case BatteryTimeout => v in {15, 30, 45, 60}
    case ChargeBrightness | BatteryBrightness => 10 <= v <= 100
    case LockBrightness => 0 <= v <= 100
    case Keepalive | BurnIn => 0 <= v <= 1
    case LockWifi | LockBle => LockMinutes(v)
  }

  /** Value of a field, flags as 0 and 1. */
  function Value(c: Config, field: Field): int {
    match field
    case ChargeTimeout => c.chargeTimeout
    case BatteryTimeout => c.batteryTimeout
    case ChargeBrightness => c.chargeBrightness
    case BatteryBrightness => c.batteryBrightness
    case LockBrightness => c.lockBrightness
    case Keepalive => Flag(c.keepalive)
    case BurnIn => Flag(c.burnIn)
    case LockWifi => c.lockWifi
    case LockBle => c.lockBle
  }

  /** A configuration all of whose fields could have been set by patches. */
  ghost predicate Sane(c: Config) {
    forall f :: Allowed(f, Value(c, f))
  }

  function Flag(b: bool): byte {
    if b then 1 else 0
  }

  /** Range checks before the value is narrowed to its field's width. */
  function Narrowed(c: Config, field: Field, v: int): Option<Config> {
    if v < 0 || v > 600 then None
    else
      match field
      case ChargeTimeout => Some(c.(chargeTimeout := v))
      case BatteryTimeout => Some(c.(batteryTimeout := v))
      case ChargeBrightness => if v > 100 then None else Some(c.(chargeBrightness := v))
      case BatteryBrightness => if v > 100 then None else Some(c.(batteryBrightness := v))
      case LockBrightness => if v > 100 then None else Some(c.(lockBrightness := v))
      case Keepalive => if v > 1 then None else Some(c.(keepalive := v != 0))
      case BurnIn => if v > 1 then None else Some(c.(burnIn := v != 0))
      case LockWifi => if v > 60 then None else Some(c.(lockWifi := v))
      case LockBle => if v > 60 then None else Some(c.(lockBle := v))
  }

  function Patch(c: Config, name: Option<string>, v: int): Option<Config> {
    var field := Named(name);
    if field.None? then None
    else
      var next := Narrowed(c, field.value, v);
      if next.Some? && Sanitize(next.value) == next.value then next else None
  }

  lemma SanitizeField(c: Config, f: Field)
    ensures Allowed(f, Value(Sanitize(c), f))
    ensures Value(Sanitize(c), f) == Value(c, f) <==> Allowed(f, Value(c, f))
  {
  }

  lemma SameValues(c: Config, d: Config)
    requires forall f :: Value(c, f) == Value(d, f)
    ensures c == d
  {
    assert Value(c, ChargeTimeout) == Value(d, ChargeTimeout) && Value(c, BatteryTimeout) == Value(d, BatteryTimeout);
    assert Value(c, ChargeBrightness) == Value(d, ChargeBrightness);
    assert Value(c, BatteryBrightness) == Value(d, BatteryBrightness);
    assert Value(c, LockBrightness) == Value(d, LockBrightness);
    assert Value(c, Keepalive) == Value(d, Keepalive) && Value(c, BurnIn) == Value(d, BurnIn);
    assert Value(c, LockWifi) == Value(d, LockWifi) && Value(c, LockBle) == Value(d, LockBle);
  }

  /** Sanitizing keeps exactly the permitted values, so it changes nothing exactly when all are, and ends there. */
  lemma SanitizeExactly(c: Config)
    ensures Sanitize(c) == c <==> Sane(c)
    ensures Sane(Sanitize(c))
    ensures forall f :: Value(Sanitize(c), f) == Value(c, f) <==> Allowed(f, Value(c, f))
  {
    forall f
      ensures Allowed(f, Value(Sanitize(c), f))
      ensures Value(Sanitize(c), f) == Value(c, f) <==> Allowed(f, Value(c, f))
    {
      SanitizeField(c, f);
    }
    if Sane(c) {
      SameValues(Sanitize(c), c);
    }
  }

  lemma NarrowedIs(c: Config, field: Field, v: int, next: Config)
    requires Narrowed(c, field, v) == Some(next)
    ensures forall f :: Value(next, f) == if f == field then v else Value(c, f)
  {
  }

  /**
   A patch of a permitted configuration succeeds exactly for a known field and a permitted value; it sets that
   field, leaves every other one, and the result is again permitted.
   */
  lemma PatchExactly(c: Config, name: Option<string>, v: int)
    requires Sane(c)
    ensures Patch(c, name, v).Some? <==> Named(name).Some? && Allowed(Named(name).value, v)
    ensures Patch(c, name, v).Some? ==>
      && Sane(Patch(c, name, v).value)
      && forall f :: Value(Patch(c, name, v).value, f) == if f == Named(name).value then v else Value(c, f)
  {
    var field := Named(name);
    if field.Some? {
      var next := Narrowed(c, field.value, v);
      if next.Some? {
        NarrowedIs(c, field.value, v, next.value);
        SanitizeExactly(next.value);
        assert Value(next.value, field.value) == v;
      }
    }
  }

  // ----- the stored blob

  function Body(c: Config): (r: seq<byte>)
    ensures |r| == COVERED
  {
    LE(MAGIC, 4)
    + [3, Flag(c.burnIn), c.chargeBrightness, c.batteryBrightness, c.lockBrightness, c.lockWifi, c.lockBle,
       Flag(c.keepalive)]
    + LE(c.chargeTimeout, 4) + LE(c.batteryTimeout, 4)
  }

  function Encode(c: Config): (r: seq<byte>)
    ensures |r| == BLOB
  {
    Body(c) + LE(Crc(Body(c)), 4)
  }

  /** Version 1 has no lock intervals, only version 3 has the keepalive flag; missing fields keep their defaults. */
  function Fields(b: seq<byte>): Config
    requires |b| == BLOB
  {
    Pow256Values();
    Config(Get(b, 12, 4), Get(b, 16, 4), b[6], b[7], b[8], b[5] != 0,
      if b[4] >= 2 then b[9] else 5, if b[4] >= 2 then b[10] else 1, if b[4] == 3 then b[11] != 0 else true)
  }

  function Decode(b: seq<byte>): Option<Config>
    requires |b| == BLOB
  {
    if || Get(b, 0, 4) != MAGIC || (b[4] != 1 && b[4] != 2 && b[4] != 3) || b[5] > 1
       || (b[4] == 1 && (b[9] != 0 || b[10] != 0)) || (if b[4] < 3 then b[11] != 0 else b[11] > 1)
       || Get(b, 20, 4) != Crc(b[..COVERED])
    then None
    else if Sanitize(Fields(b)) != Fields(b) then None
    else Some(Fields(b))
  }

  lemma BodyParts(c: Config)
    ensures var b := Encode(c);
      && b[..COVERED] == Body(c) && b[0..4] == LE(MAGIC, 4) && b[12..16] == LE(c.chargeTimeout, 4)
      && b[16..20] == LE(c.batteryTimeout, 4) && b[20..24] == LE(Crc(Body(c)), 4)
      && b[4] == 3 && b[5] == Flag(c.burnIn) && b[6] == c.chargeBrightness && b[7] == c.batteryBrightness
      && b[8] == c.lockBrightness && b[9] == c.lockWifi && b[10] == c.lockBle && b[11] == Flag(c.keepalive)
  {
  }

  /** A stored configuration reads back as itself exactly if it is permitted. */
  lemma EncodeThenDecode(c: Config)
    ensures Decode(Encode(c)) == if Sane(c) then Some(c) else None
  {
    BodyParts(c);
    Pow256Values();
    LERoundTrip(MAGIC, 4);
    LERoundTrip(c.chargeTimeout, 4);
    LERoundTrip(c.batteryTimeout, 4);
    LERoundTrip(Crc(Body(c)), 4);
    SanitizeExactly(c);
  }

  lemma BodyBack(b: seq<byte>, c: Config)
    requires |b| == BLOB && b[4] == 3 && b[5] <= 1 && b[11] <= 1 && c == Fields(b) && Get(b, 0, 4) == MAGIC
    ensures Body(c) == b[..COVERED]
  {
    LEOfFromLE(b[0..4]);
    LEOfFromLE(b[12..16]);
    LEOfFromLE(b[16..20]);
    assert b[4..12] == [3, Flag(c.burnIn), c.chargeBrightness, c.batteryBrightness, c.lockBrightness, c.lockWifi,
                        c.lockBle, Flag(c.keepalive)];
    assert b[..COVERED] == b[0..4] + b[4..12] + b[12..16] + b[16..20];
  }

  lemma EncodeBack(b: seq<byte>, c: Config)
    requires |b| == BLOB && Body(c) == b[..COVERED] && Get(b, 20, 4) == Crc(Body(c))
    ensures Encode(c) == b
  {
    LEOfFromLE(b[20..24]);
    assert b == b[..COVERED] + b[20..24];
  }

  /**
   Whatever is accepted is permitted. A version 3 blob is the encoding of what it decodes to; an older one decodes
   with the default keepalive, and version 1 with the default lock intervals.
   */
  lemma DecodeThenEncode(b: seq<byte>)
    requires |b| == BLOB && Decode(b).Some?
    ensures Sane(Decode(b).value)
    ensures b[4] == 3 ==> Encode(Decode(b).value) == b
    ensures b[4] < 3 ==> Decode(b).value.keepalive
    ensures b[4] == 1 ==> Decode(b).value.lockWifi == 5 && Decode(b).value.lockBle == 1
  {
    SanitizeExactly(Fields(b));
    if b[4] == 3 {
      BodyBack(b, Fields(b));
      EncodeBack(b, Fields(b));
    }
  }

  /** Any change confined to four consecutive bytes under the CRC makes an accepted blob unreadable. */
  lemma CorruptionRejected(b: seq<byte>, b': seq<byte>, p: nat)
    requires |b| == |b'| == BLOB && Decode(b).Some? && b != b'
    requires p + 4 <= COVERED && b[..p] == b'[..p] && b[p + 4..] == b'[p + 4..]
    ensures Decode(b') == None
  {
    var m, m' := b[..COVERED], b'[..COVERED];
    assert b[COVERED..] == b[p + 4..][COVERED - p - 4..] == b'[p + 4..][COVERED - p - 4..] == b'[COVERED..];
    assert b == m + b[COVERED..] && b' == m' + b'[COVERED..];
    assert m[..p] == b[..p] && m'[..p] == b'[..p];
    assert m[p + 4..] == b[p + 4..][..COVERED - p - 4] && m'[p + 4..] == b'[p + 4..][..COVERED - p - 4];
    BurstDetected(m, m', p);
    assert b[COVERED..COVERED + 4] == b[COVERED..] && b'[COVERED..COVERED + 4] == b'[COVERED..];
  }

  // ----- leases and revisions

  function Up(v: u32): u32 {
    (v + 1) % TWO32
  }

  /** The settings in RAM: the base configuration, an overlay that lasts while leaseUntil is not 0, and revisions. */
  datatype Settings = Settings(
    config: Config, overlay: Config, leaseUntil: int, runtimeRevision: u32,
    revision: u32, savedRevision: u32, pending: bool, error: int, requestedAt: int, attemptedRevision: u32)
  {
    predicate Leased() {
      leaseUntil != 0
    }

    function Effective(): Config {
      if Leased() then overlay else config
    }

    function Restored(): Settings {
      if Leased() then this.(leaseUntil := 0, runtimeRevision := Up(runtimeRevision)) else this
    }

    function Expired(now: int, unsafe: bool): Settings {
      if Leased() && (unsafe || now >= leaseUntil) then Restored() else this
    }

    /** What a temporary edit starts from. */
    function Current(now: int): Config {
      if Leased() && now < leaseUntil then overlay else config
    }

    function Temporary(field: Option<string>, v: int, seconds: nat, now: int): Option<Settings> {
      if seconds < 30 || seconds > 600 then None
      else
        var next := Patch(Current(now), field, v);
        if next.None? then None
        else
          var s := Expired(now, false);
          Some(s.(overlay := next.value, leaseUntil := now + seconds * SECOND,
                  runtimeRevision := Up(s.runtimeRevision)))
    }

    function Requested(c: Config, now: int): Settings {
      var s, next := Restored(), Sanitize(c);
      if next == config && error == 0 then s
      else s.(config := next, runtimeRevision := Up(s.runtimeRevision), revision := Up(revision), pending := true,
              error := 0, requestedAt := now)
    }

    function Persisted(field: Option<string>, v: int, now: int): Option<Settings> {
      var next := Patch(config, field, v);
      if next.None? then None else Some(Requested(next.value, now))
    }

    function TemporarySaved(confirmed: bool, now: int): Option<Settings> {
      if !confirmed then None
      else
        var s := Expired(now, false);
        Some(s.Requested(s.Effective(), now))
    }

    predicate Due(now: int) {
      pending && attemptedRevision != revision && now - requestedAt >= SECOND
    }

    function Completed(written: u32, failure: int): Settings {
      var s := if failure == 0 then this.(savedRevision := written) else this;
      if written == revision then s.(pending := false, error := failure) else s
    }

    predicate Clean() {
      !pending && error == 0 && savedRevision == revision
    }

    /** Defaults that were never edited need no write before a reboot. */
    predicate RebootReady() {
      !pending && error == 0 && (savedRevision == revision || (revision == 1 && savedRevision == 0))
    }
  }

  function Fresh(c: Config): Settings {
    Settings(c, Defaults(), 0, 1, 1, 0, false, 0, 0, 0)
  }

  /**
   A lease is laid over the base only: a temporary edit and its end leave the base configuration, its revisions and
   its pending write alone, and once ended the base is what is in effect again.
   */
  lemma LeaseIsUndone(s: Settings, field: Option<string>, v: int, seconds: nat, now: int, unsafe: bool)
    requires Sane(s.config) && (s.Leased() ==> Sane(s.overlay)) && now >= 0
    ensures s.Temporary(field, v, seconds, now).Some? <==>
      30 <= seconds <= 600 && Named(field).Some? && Allowed(Named(field).value, v)
    ensures s.Temporary(field, v, seconds, now).Some? ==>
      var t := s.Temporary(field, v, seconds, now).value;
      && t.(overlay := s.overlay, leaseUntil := s.leaseUntil, runtimeRevision := s.runtimeRevision) == s
      && t.Leased() && Value(t.Effective(), Named(field).value) == v && Sane(t.overlay)
      && t.Expired(now + seconds * SECOND, unsafe).Effective() == s.config
      && (!unsafe ==> t.Expired(now + seconds * SECOND - 1, unsafe) == t)
  {
    PatchExactly(s.Current(now), field, v);
  }

  /** A confirmed save makes the overlay the base exactly while its lease lives; afterwards it only repeats the base. */
  lemma OnlyLiveOverlaySaved(s: Settings, now: int)
    requires Sane(s.config) && (s.Leased() ==> Sane(s.overlay))
    ensures s.TemporarySaved(false, now) == None
    ensures s.TemporarySaved(true, now).Some? && !s.TemporarySaved(true, now).value.Leased()
    ensures s.TemporarySaved(true, now).value.config == s.Current(now)
    ensures s.TemporarySaved(true, now).value.revision != s.revision <==> s.Current(now) != s.config || s.error != 0
  {
    SanitizeExactly(s.config);
    SanitizeExactly(s.overlay);
  }

  /** The settings object, changed in place. */
  class Model {
    var config: Config
    var overlay: Config
    var leaseUntil: int
    var runtimeRevision: u32
    var revision: u32
    var savedRevision: u32
    var pending: bool
    var error: int
    var requestedAt: int
    var attemptedRevision: u32

    ghost function View(): Settings
      reads this
    {
      Settings(config, overlay, leaseUntil, runtimeRevision, revision, savedRevision, pending, error, requestedAt,
        attemptedRevision)
    }

    constructor ()
      ensures View() == Fresh(Defaults())
    {
      config, overlay := Defaults(), Defaults();
      leaseUntil, runtimeRevision, revision, savedRevision := 0, 1, 1, 0;
      pending, error, requestedAt, attemptedRevision := false, 0, 0, 0;
    }

    method Restore() returns (ended: bool)
      modifies this
      ensures View() == old(View()).Restored() && ended == old(View()).Leased()
    {
      if leaseUntil == 0 { return false; }
      leaseUntil, runtimeRevision := 0, Up(runtimeRevision);
      return true;
    }

    method Expire(now: int, unsafe: bool) returns (ended: bool)
      modifies this
      ensures View() == old(View()).Expired(now, unsafe) && ended == (View() != old(View()))
    {
      ended := false;
      if leaseUntil != 0 && (unsafe || now >= leaseUntil) {
        ended := Restore();
      }
    }

    method SetTemporary(field: Option<string>, v: int, seconds: nat, now: int) returns (ok: bool)
      modifies this
      ensures match old(View()).Temporary(field, v, seconds, now)
        case Some(s) => ok && View() == s
        case None => !ok && View() == old(View())
    {
      if seconds < 30 || seconds > 600 { return false; }
      var next := Patch(if leaseUntil != 0 && now < leaseUntil then overlay else config, field, v);
      if next.None? { return false; }
      var ended := Expire(now, false);
      overlay, leaseUntil, runtimeRevision := next.value, now + seconds * SECOND, Up(runtimeRevision);
      return true;
    }

    method Request(c: Config, now: int)
      modifies this
      ensures View() == old(View()).Requested(c, now)
    {
      var ended := Restore();
      var next := Sanitize(c);
      if next == config && error == 0 { return; }
      config, runtimeRevision, revision := next, Up(runtimeRevision), Up(revision);
      pending, error, requestedAt := true, 0, now;
    }

    method RequestPersistentField(field: Option<string>, v: int, now: int) returns (ok: bool)
      modifies this
      ensures match old(View()).Persisted(field, v, now)
        case Some(s) => ok && View() == s
        case None => !ok && View() == old(View())
    {
      var next := Patch(config, field, v);
      if next.None? { return false; }
      Request(next.value, now);
      return true;
    }

    method SaveTemporary(confirmed: bool, now: int) returns (ok: bool)
      modifies this
      ensures match old(View()).TemporarySaved(confirmed, now)
        case Some(s) => ok && View() == s
        case None => !ok && View() == old(View())
    {
      if !confirmed { return false; }
      var ended := Expire(now, false);
      Request(if leaseUntil != 0 then overlay else config, now);
      return true;
    }

    method Completed(written: u32, failure: int)
      modifies this
      ensures View() == old(View()).Completed(written, failure)
    {
      if failure == 0 { savedRevision := written; }
      if written == revision { pending, error := false, failure; }
    }
  }
}
