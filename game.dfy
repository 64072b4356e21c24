/** The state of the game screen: wallet, collection, the pull-and-reveal
    lifecycle and level progression. */
module Game {
  import opened Wrappers
  import opened Catalog
  import opened InstanceIds

  const PullCost: int := 100
  const StartCoins: int := 1000
  const StartLevel: int := 1
  /** Levels 1 to LevelCount are listed on the levels screen. */
  const LevelCount: int := 5

  /** What a click on the pull button leads to. */
  datatype PullOutcome = Drawn(character: Character) | InsufficientFunds | DrawInProgress

  /** The reveal callback a pull schedules, with what it closed over: the
      collection as it was at the pull and the drawn definition. */
  datatype PendingReveal = PendingReveal(base: seq<Character>, character: Character)

  /** `c` is a copy of some catalog definition revealed no later than `bound`. */
  ghost predicate FromCatalog(c: Character, bound: int) {
    exists d, ts: nat :: d in Characters && ts <= bound && c == Instance(d, ts)
  }

  /** No two copies in `owned` share an identifier. */
  ghost predicate DistinctIds(owned: seq<Character>) {
    forall i, j :: 0 <= i < j < |owned| ==> owned[i].id != owned[j].id
  }

  class GameState {
    var coins: int
    var owned: seq<Character>
    /** The reveal overlay is shown (`showGacha`). */
    var revealing: bool
    /** The character on display during the reveal (`pulledCharacter`). */
    var pulled: Option<Character>
    var level: int
    /** The scheduled reveal callback, if any. */
    var pending: Option<PendingReveal>
    /** Total coins credited by purchases so far. */
    ghost var bought: int
    /** The timestamp of the latest reveal, or -1 before the first one. */
    ghost var lastReveal: int

    ghost predicate Valid()
      reads this
    {
      && coins >= 0
      && bought >= 0
      && StartLevel <= level <= LevelCount + 1
      && (revealing <==> pulled.Some?)
      && (revealing <==> pending.Some?)
      && (pending.Some? ==>
            && pending.value.base == owned
            && pulled == Some(pending.value.character)
            && pending.value.character in Characters)
      && lastReveal >= -1
      && (forall i :: 0 <= i < |owned| ==> FromCatalog(owned[i], lastReveal))
      && DistinctIds(owned)
      // every coin spent is a copy owned or one being revealed
      && coins + PullCost * (|owned| + if revealing then 1 else 0) == StartCoins + bought
    }

    /** The pull button is enabled. In a valid state this is exactly when no
        reveal callback is scheduled and the balance covers a pull, and then no
        character is on display. */
    predicate PullEnabled()
      reads this
      ensures Valid() ==> (PullEnabled() <==> pending.None? && coins >= PullCost)
      ensures Valid() && PullEnabled() ==> pulled.None?
    {
      !revealing && coins >= PullCost
    }

    constructor ()
      ensures Valid()
      ensures coins == StartCoins && owned == [] && !revealing && pulled == None
      ensures level == StartLevel && bought == 0 && lastReveal == -1
    {
      coins := StartCoins;
      owned := [];
      revealing := false;
      pulled := None;
      level := StartLevel;
      pending := None;
      bought := 0;
      lastReveal := -1;
    }

    /** A click on the pull button with tier draw `r` and index draw `u`.
        Refused while a reveal is pending or when the balance is below the
        cost; otherwise debits the cost, resolves a character and starts the
        reveal. */
    method Pull(r: real, u: real) returns (outcome: PullOutcome)
      requires Valid()
      requires 0.0 <= u < 1.0
      modifies this
      ensures Valid()
      ensures level == old(level) && owned == old(owned) && bought == old(bought)
      ensures lastReveal == old(lastReveal)
      ensures outcome.Drawn? <==> old(PullEnabled())
      ensures old(revealing) ==> outcome == DrawInProgress
      ensures !old(revealing) && old(coins) < PullCost ==> outcome == InsufficientFunds
      ensures !outcome.Drawn? ==>
                coins == old(coins) && revealing == old(revealing) && pulled == old(pulled) && pending == old(pending)
      ensures outcome.Drawn? ==>
                && coins == old(coins) - PullCost
                && outcome.character == Draw(r, u)
                && outcome.character in Characters
                && outcome.character.rarity == Tier(r)
                && revealing
                && pulled == Some(outcome.character)
                && pending == Some(PendingReveal(owned, outcome.character))
    {
      if revealing {
        return DrawInProgress;
      }
      if coins < PullCost {
        return InsufficientFunds;
      }
      var character := Draw(r, u);
      StartReveal(character);
      outcome := Drawn(character);
    }

    /** The successful half of a pull: debit the cost, show `character` and
        schedule its reveal over the current collection. */
    method StartReveal(character: Character)
      requires Valid() && PullEnabled()
      requires character in Characters
      modifies this
      ensures Valid()
      ensures level == old(level) && owned == old(owned) && bought == old(bought)
      ensures lastReveal == old(lastReveal)
      ensures coins == old(coins) - PullCost
      ensures revealing && pulled == Some(character)
      ensures pending == Some(PendingReveal(owned, character))
    {
      coins, revealing, pulled := coins - PullCost, true, Some(character);
      pending := Some(PendingReveal(owned, character));
    }

    /** The reveal callback firing at timestamp `ts`: appends a copy of the
        pulled character and closes the reveal. The clock moves forward, so
        `ts` is later than every earlier reveal, and the new copy's identifier
        differs from every owned one. */
    method CompleteReveal(ts: nat)
      requires Valid()
      requires revealing
      requires ts > lastReveal
      modifies this
      ensures Valid()
      ensures owned == old(owned) + [Instance(old(pulled).value, ts)]
      ensures !revealing && pulled == None && lastReveal == ts
      ensures coins == old(coins) && level == old(level) && bought == old(bought)
    {
      var scheduled := pending.value;
      var copy := Instance(scheduled.character, ts);
      AppendFreshCopy(owned, lastReveal, scheduled.character, ts);
      var appended := scheduled.base + [copy];
      owned, revealing, pulled, pending, lastReveal := appended, false, None, None, ts;
    }

    /** Crediting a purchased coin pack; allowed at any time. */
    method BuyCoins(amount: nat)
      requires Valid()
      modifies this`coins, this`bought
      ensures Valid()
      ensures coins == old(coins) + amount
      ensures bought == old(bought) + amount
    {
      coins := coins + amount;
      bought := bought + amount;
    }

    /** A click on the button of level `lv`; such a button is shown only for
        listed levels that are already unlocked. */
    method PlayLevel(lv: int)
      requires Valid()
      requires StartLevel <= lv <= LevelCount && lv <= level
      modifies this`level
      ensures Valid()
      ensures level == if lv == old(level) then old(level) + 1 else old(level)
    {
      if lv == level {
        level := level + 1;
      }
    }
  }

  /** A copy revealed no later than `bound` stays so for any later bound, and
      its identifier differs from that of a copy of any catalog definition
      revealed after `bound`. */
  lemma NewCopyIdIsFresh(c: Character, bound: int, d: Character, ts: nat)
    requires FromCatalog(c, bound)
    requires d in Characters && ts > bound
    ensures FromCatalog(c, ts)
    ensures c.id != Instance(d, ts).id
  {
    var d0, ts0: nat :| d0 in Characters && ts0 <= bound && c == Instance(d0, ts0);
    CatalogIdsWellFormed();
    InstanceIdInjective(d0.id, ts0, d.id, ts);
  }

  /** Appending a copy of a catalog definition revealed after every owned
      copy keeps every copy from the catalog and all identifiers distinct. */
  lemma AppendFreshCopy(owned: seq<Character>, bound: int, d: Character, ts: nat)
    requires forall i :: 0 <= i < |owned| ==> FromCatalog(owned[i], bound)
    requires DistinctIds(owned)
    requires d in Characters && ts > bound
    ensures forall i :: 0 <= i < |owned + [Instance(d, ts)]| ==> FromCatalog((owned + [Instance(d, ts)])[i], ts)
    ensures DistinctIds(owned + [Instance(d, ts)])
  {
    var copy := Instance(d, ts);
    var appended := owned + [copy];
    forall i | 0 <= i < |owned|
      ensures FromCatalog(owned[i], ts) && owned[i].id != copy.id
    {
      NewCopyIdIsFresh(owned[i], bound, d, ts);
    }
    assert FromCatalog(copy, ts);
    forall i, j | 0 <= i < j < |appended| ensures appended[i].id != appended[j].id {
      assert appended[i] == owned[i];
      if j < |owned| {
        assert appended[j] == owned[j];
      }
    }
    forall i | 0 <= i < |appended| ensures FromCatalog(appended[i], ts) {
      if i < |owned| {
        assert appended[i] == owned[i];
      }
    }
  }

  // ---------------------------------------------------------------------------
  // Scenarios over fresh game screens

  /** From two identical screens on which a pull is affordable, a pull then a
      purchase and a purchase then a pull end in the same state. */
  method PullAndPurchaseCommute(g1: GameState, g2: GameState, amount: nat, r: real, u: real)
    requires g1 != g2 && g1.Valid() && g2.Valid() && g1.PullEnabled()
    requires g1.coins == g2.coins && g1.owned == g2.owned && g1.revealing == g2.revealing
    requires g1.pulled == g2.pulled && g1.pending == g2.pending && g1.level == g2.level
    requires 0.0 <= u < 1.0
    modifies g1, g2
    ensures g1.Valid() && g2.Valid()
    ensures g1.coins == g2.coins == old(g1.coins) - PullCost + amount
    ensures g1.owned == g2.owned == old(g1.owned) && g1.level == g2.level == old(g1.level)
    ensures g1.revealing && g2.revealing && g1.pulled == g2.pulled == Some(Draw(r, u))
    ensures g1.pending == g2.pending
  {
    var o1 := g1.Pull(r, u);
    g1.BuyCoins(amount);
    g2.BuyCoins(amount);
    var o2 := g2.Pull(r, u);
  }

  /** A second click during the reveal is refused and charges nothing. */
  method SecondPullDuringReveal(r1: real, u1: real, r2: real, u2: real)
    returns (first: PullOutcome, second: PullOutcome, balance: int)
    requires 0.0 <= u1 < 1.0 && 0.0 <= u2 < 1.0
    ensures first.Drawn? && first.character.rarity == Tier(r1)
    ensures second == DrawInProgress
    ensures balance == StartCoins - PullCost
  {
    var g := new GameState();
    first := g.Pull(r1, u1);
    second := g.Pull(r2, u2);
    balance := g.coins;
  }

  /** Two completed pulls own two copies, each of its pull's tier, with
      different identifiers. */
  method TwoPullsTwoCopies(r1: real, u1: real, ts1: nat, r2: real, u2: real, ts2: nat)
    returns (collection: seq<Character>, balance: int)
    requires 0.0 <= u1 < 1.0 && 0.0 <= u2 < 1.0
    requires ts1 < ts2
    ensures |collection| == 2
    ensures collection[0] == Instance(Draw(r1, u1), ts1) && collection[1] == Instance(Draw(r2, u2), ts2)
    ensures collection[0].rarity == Tier(r1) && collection[1].rarity == Tier(r2)
    ensures collection[0].id != collection[1].id
    ensures balance == StartCoins - 2 * PullCost
  {
    var g := new GameState();
    var first := g.Pull(r1, u1);
    g.CompleteReveal(ts1);
    var second := g.Pull(r2, u2);
    g.CompleteReveal(ts2);
    collection, balance := g.owned, g.coins;
  }
}
