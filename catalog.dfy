/** The static character catalog and the two random choices of a pull:
    the rarity tier and the character within that tier. */
module Catalog {
  import opened Wrappers

  /** Rarity tiers, from most to least likely. */
  datatype Rarity = Common | Rare | Epic | Legendary

  /** A catalog definition, or an owned copy of one (which differs only in `id`). */
  datatype Character = Character(id: string, name: string, rarity: Rarity, emoji: string, power: int)

  /** The six definitions a pull can produce, in catalog order. */
  const Characters: seq<Character> := [
    Character("1", "Cookie Runner", Common, "\U{1F36A}", 100),
    Character("2", "Cyber Cookie", Rare, "\U{1F916}", 250),
    Character("3", "Neon Warrior", Epic, "\U{26A1}", 500),
    Character("4", "Quantum King", Legendary, "\U{1F451}", 1000),
    Character("5", "Digital Ninja", Rare, "\U{1F977}", 300),
    Character("6", "Pixel Mage", Epic, "\U{1F52E}", 450)
  ]

  // ---------------------------------------------------------------------------
  // Tier resolution

  /** Start of a tier's half-open interval of draw values on the scale [0, 100). */
  function Lower(t: Rarity): (lo: real) {
    match t
    case Common => 0.0
    case Rare => 50.0
    case Epic => 75.0
    case Legendary => 90.0
  }

  /** End (exclusive) of a tier's interval of draw values. */
  function Upper(t: Rarity): (hi: real) {
    match t
    case Common => 50.0
    case Rare => 75.0
    case Epic => 90.0
    case Legendary => 100.0
  }

  /** The chance shown to the player for each tier, in percent. */
  function ShownPercent(t: Rarity): (pct: real) {
    match t
    case Common => 50.0
    case Rare => 25.0
    case Epic => 15.0
    case Legendary => 10.0
  }

  /** The tier of a draw value `r` (the source's `Math.random() * 100`).
      A value below 0 falls to Common and one at or above 100 to Legendary. */
  function Tier(r: real): (t: Rarity)
    ensures t == Common || Lower(t) <= r
    ensures t == Legendary || r < Upper(t)
  {
    if r < 50.0 then Common
    else if r < 75.0 then Rare
    else if r < 90.0 then Epic
    else Legendary
  }

  /** On [0, 100) the tiers partition the draw scale into their intervals:
      a draw value resolves to `t` exactly when it lies in `t`'s interval. */
  lemma TierIsInterval(r: real, t: Rarity)
    requires 0.0 <= r < 100.0
    ensures Tier(r) == t <==> Lower(t) <= r < Upper(t)
  {
  }

  /** A boundary value belongs to the tier that starts there. */
  lemma TierBoundaries()
    ensures Tier(0.0) == Common && Tier(49.999) == Common
    ensures Tier(50.0) == Rare && Tier(74.999) == Rare
    ensures Tier(75.0) == Epic && Tier(89.999) == Epic
    ensures Tier(90.0) == Legendary && Tier(99.999) == Legendary
  {
  }

  /** Each tier's interval is as wide as the chance shown for it, and together
      they cover the whole scale. */
  lemma TierWidthsMatchShownOdds(t: Rarity)
    ensures Upper(t) - Lower(t) == ShownPercent(t)
    ensures ShownPercent(Common) + ShownPercent(Rare) + ShownPercent(Epic) + ShownPercent(Legendary) == 100.0
  {
  }

  // ---------------------------------------------------------------------------
  // Character resolution

  /** The catalog entries of tier `t`, in catalog order (`characters.filter`). */
  function OfRarity(cat: seq<Character>, t: Rarity): (pool: seq<Character>)
    ensures |pool| <= |cat|
    ensures forall i :: 0 <= i < |pool| ==> pool[i] in cat && pool[i].rarity == t
  {
    if cat == [] then []
    else if cat[0].rarity == t then [cat[0]] + OfRarity(cat[1..], t)
    else OfRarity(cat[1..], t)
  }

  /** The pool keeps every entry of tier `t` as often as the catalog lists it,
      and nothing else. */
  lemma {:induction false} OfRarityCounts(cat: seq<Character>, t: Rarity)
    ensures forall c :: multiset(OfRarity(cat, t))[c] == if c.rarity == t then multiset(cat)[c] else 0
  {
    if cat != [] {
      assert cat == [cat[0]] + cat[1..];
      OfRarityCounts(cat[1..], t);
    }
  }

  /** `Math.floor(u * n)` for a uniform `u` in [0, 1): always an index of a
      list of length `n`. */
  function PickIndex(u: real, n: nat): (i: nat)
    requires 0.0 <= u < 1.0
    requires n > 0
    ensures i < n
  {
    assert 0.0 <= u * n as real < n as real;
    (u * n as real).Floor
  }

  /** The character a pull of tier `t` yields for the index draw `u`, or None
      when the catalog has no entry of that tier. */
  function ResolveCharacter(cat: seq<Character>, t: Rarity, u: real): (res: Option<Character>)
    requires 0.0 <= u < 1.0
    ensures res.None? <==> forall i :: 0 <= i < |cat| ==> cat[i].rarity != t
    ensures res.Some? ==> res.value in cat && res.value.rarity == t
  {
    var pool := OfRarity(cat, t);
    OfRarityCounts(cat, t);
    if |pool| == 0 then
      assert forall c :: c in cat ==> c.rarity != t by {
        forall c | c in cat ensures c.rarity != t {
          assert multiset(pool)[c] == 0;
        }
      }
      None
    else
      var c := pool[PickIndex(u, |pool|)];
      assert multiset(pool)[c] > 0;
      Some(c)
  }

  /** The index draw `k / n` picks index `k`. */
  lemma PickIndexExact(k: nat, n: nat)
    requires k < n
    ensures 0.0 <= k as real / n as real < 1.0
    ensures PickIndex(k as real / n as real, n) == k
  {
  }

  /** Every entry of tier `t` is the result of some index draw: the pick can
      reach the whole pool. */
  lemma EveryEntryReachable(cat: seq<Character>, t: Rarity, c: Character)
    requires c in cat && c.rarity == t
    ensures exists u: real :: 0.0 <= u < 1.0 && ResolveCharacter(cat, t, u) == Some(c)
  {
    var pool := OfRarity(cat, t);
    OfRarityCounts(cat, t);
    assert c in pool by {
      assert multiset(pool)[c] > 0;
    }
    var k :| 0 <= k < |pool| && pool[k] == c;
    PickIndexExact(k, |pool|);
    var u := k as real / |pool| as real;
    assert ResolveCharacter(cat, t, u) == Some(c);
  }

  /** `OfRarity(Characters, t)` specialised to the shipped catalog: the pool
      of tier `t`, written out in catalog order (`TierPoolIsFilter` proves the
      two equal). */
  function TierPool(t: Rarity): (pool: seq<Character>)
    ensures |pool| > 0
    ensures forall i :: 0 <= i < |pool| ==> pool[i] in Characters && pool[i].rarity == t
  {
    match t
    case Common => [Characters[0]]
    case Rare => [Characters[1], Characters[4]]
    case Epic => [Characters[2], Characters[5]]
    case Legendary => [Characters[3]]
  }

  /** Filtering the shipped catalog by tier gives exactly these pools, so no
      tier's pool is empty. */
  lemma TierPoolIsFilter(t: Rarity)
    ensures OfRarity(Characters, t) == TierPool(t)
  {
  }

  /** The shipped catalog has at least one entry of every tier, so character
      resolution never fails. */
  lemma CatalogCoversEveryTier(t: Rarity, u: real)
    requires 0.0 <= u < 1.0
    ensures ResolveCharacter(Characters, t, u).Some?
  {
  }

  /** `ResolveCharacter(Characters, Tier(r), u)` specialised to the shipped
      catalog: entry `floor(u * n)` of the `n` entries of tier `Tier(r)`
      (`DrawIsResolve` proves the two equal). */
  function Draw(r: real, u: real): (c: Character)
    requires 0.0 <= u < 1.0
    ensures c in Characters && c.rarity == Tier(r)
  {
    var pool := TierPool(Tier(r));
    pool[PickIndex(u, |pool|)]
  }

  /** A pull's draw is character resolution over the shipped catalog. */
  lemma DrawIsResolve(r: real, u: real)
    requires 0.0 <= u < 1.0
    ensures ResolveCharacter(Characters, Tier(r), u) == Some(Draw(r, u))
  {
    TierPoolIsFilter(Tier(r));
  }

  /** Catalog identifiers are distinct and contain no '-', the separator of
      owned-copy identifiers. */
  lemma CatalogIdsWellFormed()
    ensures forall i, j :: 0 <= i < j < |Characters| ==> Characters[i].id != Characters[j].id
    ensures forall c :: c in Characters ==> '-' !in c.id
  {
  }
}
