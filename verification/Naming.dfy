/** Object names and task identifiers, and why distinct things get distinct names. */
module Naming {

  const DIGITS := "0123456789"

  /** Plain decimal rendering ("%d"). */
  function Decimal(n: nat): string {
    if n < 10 then [DIGITS[n]] else Decimal(n / 10) + [DIGITS[n % 10]]
  }

  function Zeros(n: nat): string {
    seq(n, i => '0')
  }

  /** Decimal rendering padded to six places ("%06d"); longer numbers are not cut. */
  function Padded(n: nat): string {
    var s := Decimal(n);
    if |s| < 6 then Zeros(6 - |s|) + s else s
  }

  /** "%s.chunk.%06d" */
  function ChunkObjectKey(key: string, index: nat): string {
    key + ".chunk." + Padded(index)
  }

  /** "%s.v%d" */
  function VersionedObjectKey(key: string, version: nat): string {
    key + ".v" + Decimal(version)
  }

  /** The name under which a storage node keeps one chunk of one version. */
  function ChunkName(key: string, index: nat, version: nat): string {
    VersionedObjectKey(ChunkObjectKey(key, index), version)
  }

  /** "%s:%d:%s:%s" */
  function TaskId(key: string, version: nat, source: string, target: string): string {
    key + ":" + Decimal(version) + ":" + source + ":" + target
  }

  function DigitValue(c: char): nat {
    if '0' <= c <= '9' then c as nat - '0' as nat else 0
  }

  /** Left inverse of both renderings. */
  function Numeral(s: string): nat {
    if s == "" then 0 else Numeral(s[..|s| - 1]) * 10 + DigitValue(s[|s| - 1])
  }

  predicate AllDigits(s: string) {
    forall c <- s :: '0' <= c <= '9'
  }

  lemma {:induction false} DecimalRoundTrip(n: nat)
    ensures AllDigits(Decimal(n)) && Decimal(n) != ""
    ensures Numeral(Decimal(n)) == n
  {
    if n >= 10 {
      DecimalRoundTrip(n / 10);
      var s := Decimal(n);
      assert s[..|s| - 1] == Decimal(n / 10);
    } else {
      assert Decimal(n)[..0] == "";
    }
  }

  lemma {:induction false} LeadingZeros(k: nat, s: string)
    ensures Numeral(Zeros(k) + s) == Numeral(s)
    decreases k + |s|
  {
    var t := Zeros(k) + s;
    if s != "" {
      assert t[..|t| - 1] == Zeros(k) + s[..|s| - 1];
      LeadingZeros(k, s[..|s| - 1]);
    } else if k > 0 {
      assert t[..|t| - 1] == Zeros(k - 1) + s;
      LeadingZeros(k - 1, s);
    }
  }

  lemma PaddedRoundTrip(n: nat)
    ensures AllDigits(Padded(n))
    ensures Numeral(Padded(n)) == n
  {
    hide Decimal, Numeral;
    DecimalRoundTrip(n);
    var s := Decimal(n);
    if |s| < 6 { LeadingZeros(6 - |s|, s); }
  }

  /** No superfluous zeros, and at least six places where padded. */
  lemma {:induction false} RenderingShape(n: nat)
    ensures Decimal(n)[0] == '0' <==> n == 0
    ensures |Padded(n)| >= 6 && (|Padded(n)| > 6 ==> Padded(n) == Decimal(n))
  {
    if n >= 10 {
      RenderingShape(n / 10);
      assert Decimal(n)[0] == Decimal(n / 10)[0];
    }
  }

  /** Some names in full. */
  lemma NameExamples()
    ensures VersionedObjectKey("f", 12) == "f.v12"
    ensures ChunkName("f", 7, 3) == "f.chunk.000007.v3"
    ensures TaskId("f", 3, "a", "b") == "f:3:a:b"
  {
    assert Decimal(12) == Decimal(1) + ['2'] == "12";
    assert Decimal(3) == "3" && Decimal(7) == "7";
    assert Padded(7) == Zeros(5) + "7" == "000007";
    assert ChunkObjectKey("f", 7) == "f.chunk.000007";
  }

  /** A separator that does not occur to its right splits a string in one way only. */
  lemma SplitAtLast(a: string, b: string, a': string, b': string, c: char)
    requires a + [c] + b == a' + [c] + b'
    requires c !in b && c !in b'
    ensures a == a' && b == b'
  {
    var s := a + [c] + b;
    assert s[|a|] == c && s[|a'|] == c;
    assert |a| == |a'|;
    assert a == s[..|a|] && b == s[|a| + 1..];
    assert a' == s[..|a'|] && b' == s[|a'| + 1..];
  }

  lemma CutSuffix(a: string, b: string, suffix: string)
    requires a + suffix == b + suffix
    ensures a == b
  {
    assert a == (a + suffix)[..|a|];
    assert b == (b + suffix)[..|b|];
  }

  lemma VersionedObjectKeyInjective(key: string, version: nat, key': string, version': nat)
    requires VersionedObjectKey(key, version) == VersionedObjectKey(key', version')
    ensures key == key' && version == version'
  {
    hide Decimal, Numeral;
    DecimalRoundTrip(version);
    DecimalRoundTrip(version');
    assert key + ".v" + Decimal(version) == (key + ".") + ['v'] + Decimal(version);
    assert key' + ".v" + Decimal(version') == (key' + ".") + ['v'] + Decimal(version');
    SplitAtLast(key + ".", Decimal(version), key' + ".", Decimal(version'), 'v');
    CutSuffix(key, key', ".");
  }

  lemma ChunkObjectKeyInjective(key: string, index: nat, key': string, index': nat)
    requires ChunkObjectKey(key, index) == ChunkObjectKey(key', index')
    ensures key == key' && index == index'
  {
    hide Padded, Numeral;
    PaddedRoundTrip(index);
    PaddedRoundTrip(index');
    assert key + ".chunk." + Padded(index) == (key + ".chunk") + ['.'] + Padded(index);
    assert key' + ".chunk." + Padded(index') == (key' + ".chunk") + ['.'] + Padded(index');
    SplitAtLast(key + ".chunk", Padded(index), key' + ".chunk", Padded(index'), '.');
    CutSuffix(key, key', ".chunk");
  }

  /** Distinct (key, index, version) triples never share an object name, whatever the keys contain. */
  lemma ChunkNameInjective(key: string, index: nat, version: nat, key': string, index': nat, version': nat)
    ensures ChunkName(key, index, version) == ChunkName(key', index', version')
       <==> key == key' && index == index' && version == version'
  {
    if ChunkName(key, index, version) == ChunkName(key', index', version') {
      VersionedObjectKeyInjective(ChunkObjectKey(key, index), version, ChunkObjectKey(key', index'), version');
      ChunkObjectKeyInjective(key, index, key', index');
    }
  }

  /**
   * An object stored whole (a file without a manifest) can collide with a chunk of another key:
   * exactly when its key is spelled like a chunk name.
   */
  lemma WholeObjectCollision(key: string, version: nat, key': string, index': nat, version': nat)
    ensures VersionedObjectKey(key, version) == ChunkName(key', index', version')
       <==> key == ChunkObjectKey(key', index') && version == version'
  {
    if VersionedObjectKey(key, version) == ChunkName(key', index', version') {
      VersionedObjectKeyInjective(key, version, ChunkObjectKey(key', index'), version');
    }
  }

  /** Task identifiers are unambiguous as long as node IDs hold no ':' (keys may). */
  lemma TaskIdInjective(
      key: string, version: nat, source: string, target: string,
      key': string, version': nat, source': string, target': string)
    requires ':' !in source && ':' !in target && ':' !in source' && ':' !in target'
    ensures TaskId(key, version, source, target) == TaskId(key', version', source', target')
       <==> key == key' && version == version' && source == source' && target == target'
  {
    if TaskId(key, version, source, target) == TaskId(key', version', source', target') {
      var d, d' := Decimal(version), Decimal(version');
      DecimalRoundTrip(version);
      DecimalRoundTrip(version');
      SplitAtLast(key + ":" + d + ":" + source, target, key' + ":" + d' + ":" + source', target', ':');
      SplitAtLast(key + ":" + d, source, key' + ":" + d', source', ':');
      SplitAtLast(key, d, key', d', ':');
    }
  }

  /** For one file version and source, identifiers are unambiguous with no condition on the node IDs. */
  lemma TaskIdTargetInjective(key: string, version: nat, source: string, target: string, target': string)
    requires TaskId(key, version, source, target) == TaskId(key, version, source, target')
    ensures target == target'
  {
    var prefix := key + ":" + Decimal(version) + ":" + source + ":";
    assert target == TaskId(key, version, source, target)[|prefix|..];
    assert target' == TaskId(key, version, source, target')[|prefix|..];
  }

  /** The identifier of a copy from a node whose ID contains ':' is also that of a copy between two other nodes. */
  lemma TaskIdAmbiguous(key: string, version: nat, source: string, target: string)
    requires ':' in source
    ensures exists source', target' ::
      source' != source && target' != target
        && TaskId(key, version, source, target) == TaskId(key, version, source', target')
  {
    hide Decimal;
    var i :| 0 <= i < |source| && source[i] == ':';
    var (source', target') := (source[..i], source[i + 1..] + ":" + target);
    assert source == source' + ":" + source[i + 1..];
    assert |source'| != |source| && |target'| != |target|;
    assert TaskId(key, version, source, target) == TaskId(key, version, source', target');
  }

  /** The same for a target. */
  lemma TaskIdAmbiguousTarget(key: string, version: nat, source: string, target: string)
    requires ':' in target
    ensures exists source', target' ::
      source' != source && target' != target
        && TaskId(key, version, source, target) == TaskId(key, version, source', target')
  {
    hide Decimal;
    var i :| 0 <= i < |target| && target[i] == ':';
    var (source', target') := (source + ":" + target[..i], target[i + 1..]);
    assert target == target[..i] + ":" + target';
    assert |source'| != |source| && |target'| != |target|;
    assert TaskId(key, version, source, target) == TaskId(key, version, source', target');
  }
}
