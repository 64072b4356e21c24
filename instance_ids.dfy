/** Identifiers of owned copies. A pull's reveal stores a copy of the drawn
    definition whose id is the definition id, a '-', and the decimal
    rendering of the millisecond timestamp of the reveal. */
module InstanceIds {
  import opened Wrappers
  import opened Catalog

  predicate IsDigit(ch: char) {
    '0' <= ch <= '9'
  }

  predicate AllDigits(s: string) {
    forall i :: 0 <= i < |s| ==> IsDigit(s[i])
  }

  function DigitChar(d: nat): (ch: char)
    requires d < 10
    ensures IsDigit(ch)
  {
    ('0' as int + d) as char
  }

  function DigitValue(ch: char): (d: nat)
    requires IsDigit(ch)
    ensures d < 10 && DigitChar(d) == ch
  {
    ch as int - '0' as int
  }

  /** Decimal rendering of a timestamp, as a template literal prints an integer. */
  function NatToString(n: nat): (s: string)
    ensures |s| > 0 && AllDigits(s)
    ensures |s| > 1 ==> s[0] != '0'
  {
    if n < 10 then [DigitChar(n)]
    else NatToString(n / 10) + [DigitChar(n % 10)]
  }

  /** The value of a string of decimal digits. */
  function StringToNat(s: string): (n: nat)
    requires AllDigits(s)
  {
    if s == [] then 0
    else StringToNat(s[..|s| - 1]) * 10 + DigitValue(s[|s| - 1])
  }

  /** Reading a rendered timestamp back gives the timestamp. */
  lemma {:induction false} StringToNatOfNatToString(n: nat)
    ensures StringToNat(NatToString(n)) == n
  {
    var s := NatToString(n);
    if n >= 10 {
      var prefix := NatToString(n / 10);
      assert s[..|s| - 1] == prefix;
      StringToNatOfNatToString(n / 10);
    }
  }

  /** Position of the first `ch` in `s`, or `|s|` when there is none. */
  function FirstIndex(s: string, ch: char): (k: nat)
    ensures k <= |s|
    ensures forall i :: 0 <= i < k ==> s[i] != ch
    ensures k < |s| ==> s[k] == ch
  {
    if s == [] then 0
    else if s[0] == ch then 0
    else 1 + FirstIndex(s[1..], ch)
  }

  /** The identifier of the copy of definition `defId` revealed at `ts`.
      When `defId` has no '-', the first '-' of the identifier ends `defId`
      and everything after it is the decimal rendering of `ts`. */
  function InstanceId(defId: string, ts: nat): (id: string)
    ensures |id| > |defId| + 1 && id[..|defId|] == defId
    ensures '-' !in defId ==> FirstIndex(id, '-') == |defId|
    ensures id[|defId| + 1..] == NatToString(ts)
  {
    var id := defId + "-" + NatToString(ts);
    assert id[|defId|] == '-';
    assert forall i :: 0 <= i < |defId| ==> id[i] == defId[i];
    id
  }

  /** Splits an instance identifier into its definition id and timestamp. */
  function ParseInstanceId(s: string): (parsed: Option<(string, nat)>)
    ensures parsed.Some? ==> '-' !in parsed.value.0
  {
    var k := FirstIndex(s, '-');
    if k + 1 < |s| && AllDigits(s[k + 1..]) then Some((s[..k], StringToNat(s[k + 1..])))
    else None
  }

  /** Parsing an instance identifier recovers the definition id and the
      timestamp, provided the definition id has no '-'. */
  lemma ParseInstanceIdRoundTrip(defId: string, ts: nat)
    requires '-' !in defId
    ensures ParseInstanceId(InstanceId(defId, ts)) == Some((defId, ts))
  {
    StringToNatOfNatToString(ts);
  }

  /** Two copies have the same identifier only when they come from the same
      definition id and the same timestamp. */
  lemma InstanceIdInjective(a: string, t1: nat, b: string, t2: nat)
    requires '-' !in a && '-' !in b
    ensures InstanceId(a, t1) == InstanceId(b, t2) <==> a == b && t1 == t2
  {
    ParseInstanceIdRoundTrip(a, t1);
    ParseInstanceIdRoundTrip(b, t2);
  }

  /** The owned copy of definition `d` revealed at `ts`: `{ ...d, id: ... }`. */
  function Instance(d: Character, ts: nat): (c: Character)
    ensures c.name == d.name && c.rarity == d.rarity && c.emoji == d.emoji && c.power == d.power
  {
    d.(id := InstanceId(d.id, ts))
  }

  /** Two reveals of the same catalog definition at different times give two
      copies that agree on every field but the identifier. */
  lemma InstancesDistinct(d: Character, t1: nat, t2: nat)
    requires d in Characters
    ensures Instance(d, t1).id == Instance(d, t2).id <==> t1 == t2
    ensures Instance(d, t1).(id := d.id) == Instance(d, t2).(id := d.id) == d
  {
    CatalogIdsWellFormed();
    InstanceIdInjective(d.id, t1, d.id, t2);
  }
}
