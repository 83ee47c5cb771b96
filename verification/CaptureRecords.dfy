/** Which sessions are permitted, by the octets of their addresses, and which records are safe, by their bytes. */
module CaptureRecords {
  import opened Bytes
  import opened HeaderFilter
  import opened HeaderParser
  import opened PacketCapture

  function Address(a: byte, b: byte, c: byte, d: byte): u32 {
    ((a * 256 + b) * 256 + c) * 256 + d
  }

  /** 10.x.x.x, 172.16.x.x to 172.31.x.x and 192.168.x.x, less those that end in 0 or 255. */
  lemma PrivateExactly(a: byte, b: byte, c: byte, d: byte)
    ensures PrivateUnicast(Address(a, b, c, d)) <==>
      (a == 10 || (a == 172 && 16 <= b <= 31) || (a == 192 && b == 168)) && 1 <= d <= 254
  {
    var x := Address(a, b, c, d);
    assert x / 0x100_0000 == a && x / 0x1_0000 == a * 256 + b && x % 256 == d;
    assert x / 0x10_0000 == (a * 256 + b) / 16;
  }

  /** Exactly which sessions are permitted. */
  lemma PermittedExactly(s: Session)
    ensures Permitted(s) <==>
      && s.config.local == Address(192, 168, 1, 154) && s.config.peer != s.config.local
      && PrivateUnicast(s.config.peer) && 1024 <= s.config.port <= 65535 && 1 <= s.ttl <= 120 && s.absolute
  {
  }

  /** The least multiple of four that is not less. */
  predicate RoundsUp(n: nat, r: nat) {
    n <= r < n + 4 && r % 4 == 0
  }

  /** A record that is safe: its fields, its frame and its padding inside, and a frame that the parser accepts. */
  predicate SafeRecord(s: seq<byte>, c: Config) {
    && |s| >= 20
    && var hdrlen, caplen, usec := Get(s, 16, 2), Get(s, 8, 4), Get(s, 4, 4);
      && hdrlen >= 20 && usec < 1000000 && caplen <= 62 && (hdrlen + caplen + 3) / 4 * 4 <= |s|
      && ParsePlain(s[hdrlen..hdrlen + caplen], Wire(s), c).Some?
  }

  function Wire(s: seq<byte>): u32
    requires |s| >= 20
  {
    Pow256Values();
    Get(s, 12, 4)
  }

  function Seconds(s: seq<byte>): int
    requires |s| >= 20
  {
    var v := Get(s, 0, 4);
    if v < 0x8000_0000 then v else v - 0x1_0000_0000
  }

  lemma SafeExactly(s: seq<byte>, c: Config)
    ensures ReadRecord(s, c).Some? <==> SafeRecord(s, c)
  {
    Pow256Values();
  }

  /** A record is read exactly if it is safe, with its own times and headers; its length is rounded up to four. */
  lemma RecordExactly(s: seq<byte>, c: Config, r: nat)
    ensures ReadRecord(s, c).Some? <==> SafeRecord(s, c)
    ensures SafeRecord(s, c) && RoundsUp(Get(s, 16, 2) + Get(s, 8, 4), r) ==>
      var hdrlen, caplen := Get(s, 16, 2), Get(s, 8, 4);
      ReadRecord(s, c) == Some((Entry(Seconds(s), Get(s, 4, 4),
        ParsePlain(s[hdrlen..hdrlen + caplen], Wire(s), c).value), r))
  {
    SafeExactly(s, c);
    Pow256Values();
  }

  /** A batch is read exactly if it is records that are safe one behind the other, and nothing else. */
  lemma BatchExactly(s: seq<byte>, c: Config)
    ensures ReadBatch(s, c).Some? <==>
      s == [] || (SafeRecord(s, c) && ReadBatch(s[(Get(s, 16, 2) + Get(s, 8, 4) + 3) / 4 * 4..], c).Some?)
  {
    if s != [] {
      RecordExactly(s, c, if |s| >= 20 then (Get(s, 16, 2) + Get(s, 8, 4) + 3) / 4 * 4 else 0);
    }
  }
}
