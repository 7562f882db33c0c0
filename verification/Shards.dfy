/** Shard names and tags: the small functions the collapsed view is built from. */
module Shards {
  import opened Names
  import opened Text
  import opened TopologyModel

  const U32_MAX: nat := 0xFFFF_FFFF

  predicate IsDigit(c: char) {
    '0' <= c <= '9'
  }

  predicate AllDigits(s: string) {
    forall i :: 0 <= i < |s| ==> IsDigit(s[i])
  }

  function DigitsValue(s: string): nat
    requires AllDigits(s)
  {
    if s == [] then 0 else 10 * DigitsValue(s[..|s| - 1]) + (s[|s| - 1] as int - '0' as int)
  }

  function DigitChar(n: nat): char
    requires n < 10
  {
    ('0' as int + n) as char
  }

  function NatString(n: nat): (s: string)
    ensures s != [] && AllDigits(s) && DigitsValue(s) == n
  {
    if n < 10 then
      var s := [DigitChar(n)];
      assert s[..0] == [];
      s
    else
      var s := NatString(n / 10) + [DigitChar(n % 10)];
      assert s[..|s| - 1] == NatString(n / 10);
      s
  }

  /** Where the last dash is. */
  function LastDash(s: string): (r: Option<nat>)
    ensures r.Some? ==> r.value < |s| && s[r.value] == '-' && forall i :: r.value < i < |s| ==> s[i] != '-'
    ensures r.None? ==> '-' !in s
  {
    if s == [] then None
    else
      var n := |s| - 1;
      if s[n] == '-' then Some(n) else LastDash(s[..n])
  }

  /** `stem-<digits>` as its stem and index; an index beyond 32 bits does not parse. */
  function ShardSplit(name: string): (r: Option<(string, nat)>)
    ensures r.Some? ==> r.value.0 != [] && r.value.0 < name && r.value.1 <= U32_MAX
  {
    match LastDash(name)
    case None => None
    case Some(i) =>
      var stem, idx := name[..i], name[i + 1..];
      if stem == [] || idx == [] || !AllDigits(idx) || DigitsValue(idx) > U32_MAX then None
      else Some((stem, DigitsValue(idx)))
  }

  lemma {:induction false} LastDashIs(a: string, b: string)
    requires '-' !in b
    ensures LastDash(a + "-" + b) == Some(|a|)
    decreases |b|
  {
    var s := a + "-" + b;
    var n := |s| - 1;
    if b == "" {
      assert s[n] == '-';
    } else {
      assert s[n] == b[|b| - 1] && b[|b| - 1] in b;
      assert s[..n] == a + "-" + b[..|b| - 1];
      LastDashIs(a, b[..|b| - 1]);
    }
  }

  /** A name that is a stem, a dash and digits that fit 32 bits. */
  ghost predicate IsShardOf(name: string, stem: string, digits: string) {
    name == stem + "-" + digits && stem != "" && digits != "" && AllDigits(digits) && DigitsValue(digits) <= U32_MAX
  }

  /** Such a name splits into its stem and the value of its digits, and no other name splits. */
  lemma ShardSplitExact(name: string)
    ensures forall stem, digits :: IsShardOf(name, stem, digits) ==>
        ShardSplit(name) == Some((stem, DigitsValue(digits)))
    ensures ShardSplit(name).Some? ==> exists digits :: IsShardOf(name, ShardSplit(name).value.0, digits)
  {
    forall stem, digits | IsShardOf(name, stem, digits) ensures ShardSplit(name) == Some((stem, DigitsValue(digits))) {
      LastDashIs(stem, digits);
      assert name[..|stem|] == stem && name[|stem| + 1..] == digits;
    }
    if ShardSplit(name).Some? {
      var i := LastDash(name).value;
      assert name == name[..i] + "-" + name[i + 1..];
      assert IsShardOf(name, name[..i], name[i + 1..]);
    }
  }

  function ShardIndex(name: string): Option<nat> {
    var r := ShardSplit(name);
    if r.Some? then Some(r.value.1) else None
  }

  function Prefixed(prefix: string, values: seq<string>): (r: seq<string>)
    ensures |r| == |values|
  {
    if values == [] then [] else [prefix + values[0]] + Prefixed(prefix, values[1..])
  }

  /** An edge's condition as the tags the view shows. */
  function TagStrings(c: Option<TagCondition>): seq<string> {
    match c
    case None => []
    case Some(TagCondition(Not, values)) => Prefixed("not ", values)
    case Some(TagCondition(And, values)) => [Join(values, " & ")]
    case Some(TagCondition(Or, values)) => values
  }

  /** A tag that carries the shard's own index loses it: `route-2` on shard 2 becomes `route-*`. */
  function NormTag(tag: string, suffix: string): string {
    if EndsWith(tag, suffix) then tag[..|tag| - |suffix|] + "-*" else tag
  }

  function NormEach(tags: seq<string>, suffix: string): (r: seq<string>)
    ensures |r| == |tags|
  {
    if tags == [] then [] else [NormTag(tags[0], suffix)] + NormEach(tags[1..], suffix)
  }

  function NormTags(tags: seq<string>, idx: Option<nat>): seq<string> {
    if idx.None? then tags else NormEach(tags, "-" + NatString(idx.value))
  }
}
