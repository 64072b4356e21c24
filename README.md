# Cookie Run Kingdom gacha screen: a verified model of its game state

The game is a single browser screen. A player spends coins to pull random
characters of four rarities. Drawn characters are revealed after a delay and
added to a collection. The player also buys coin packs and plays through a
short list of levels. All of this state lives in one page component
(`src/pages/Index.tsx`). This project models that state and its transitions in
Dafny and proves what they guarantee.

- `wrappers.dfy` (module `Wrappers`): the `Option` type. It stands for `null`
  and for an empty tier pool.
- `catalog.dfy` (module `Catalog`): the rarity tiers, the six-entry character
  catalog and the two random choices of a pull. The tier choice is an interval
  lookup of a draw value `r` in [0, 100). The character choice is entry
  `floor(u * n)` of the `n` catalog entries of that tier, for a draw `u` in
  [0, 1).
- `instance_ids.dfy` (module `InstanceIds`): the id of an owned copy, which is
  `<definition id>-<timestamp>`. The module also has a parser for these ids and
  proves that parsing gives back the definition id and the timestamp.
- `game.dfy` (module `Game`): class `GameState` holds the component's mutable
  state: coins, owned copies, the reveal flag, the pulled character and the
  current level. It also holds the scheduled reveal callback, with the
  collection and character that callback captured. Its methods are the event
  handlers. Three scenario methods run the handlers on a fresh screen.

The class invariant `Valid()` states:

- the balance is never negative;
- the reveal flag, the pulled character and the scheduled callback are set and
  cleared together;
- the collection the callback captured is still the current collection, so the
  callback appends to the collection the player actually has;
- every owned copy comes from a catalog definition and was revealed no later
  than the latest reveal;
- no two owned copies share an identifier (the collection uses the identifier
  as its list key);
- coins are conserved: the balance plus 100 per owned or revealing copy equals
  the 1000 starting coins plus everything bought;
- the level stays between 1 and 6.

A pull is refused while a reveal is pending. This guard is the pull button's
`disabled` condition; `pullCharacter` itself checks only the balance. The model
puts both checks in `Pull` and reports which one refused.

## Model

| member | source | states |
|---|---|---|
| `Catalog.Tier` | src/pages/Index.tsx:49-55 | the tier returned is Common or starts at or below `r`, and is Legendary or ends above `r` |
| `Catalog.TierIsInterval` | src/pages/Index.tsx:49-55 | for `r` in [0, 100), `r` resolves to tier `t` exactly when `r` lies in `t`'s half-open interval [0,50), [50,75), [75,90) or [90,100) |
| `Catalog.TierBoundaries` | src/pages/Index.tsx:49-55 | 0 and 49.999 give Common; 50 and 74.999 give Rare; 75 and 89.999 give Epic; 90 and 99.999 give Legendary. Each boundary goes to the higher tier |
| `Catalog.TierWidthsMatchShownOdds` | src/pages/Index.tsx:143-159 | each tier's interval is as wide as the percentage shown for it (50/25/15/10), and the shown percentages add up to 100 |
| `Catalog.OfRarity` | src/pages/Index.tsx:62 | the filtered pool is no longer than the catalog, and each of its entries is a catalog entry of the requested tier |
| `Catalog.OfRarityCounts` | src/pages/Index.tsx:62 | the pool has each entry of the requested tier as many times as the catalog does, and no other entries |
| `Catalog.PickIndex` | src/pages/Index.tsx:63 | `floor(u * n)` for `u` in [0, 1) and `n > 0` is a valid index below `n` |
| `Catalog.PickIndexExact` | src/pages/Index.tsx:63 | the draw `k / n` lies in [0, 1) and picks index `k` |
| `Catalog.ResolveCharacter` | src/pages/Index.tsx:61-63 | the result is None exactly when the catalog has no entry of the tier; otherwise it is a catalog entry of that tier |
| `Catalog.EveryEntryReachable` | src/pages/Index.tsx:62-63 | every catalog entry of a tier is the result for some index draw in [0, 1) |
| `Catalog.TierPool` | src/pages/Index.tsx:32-39 | the shipped catalog's pool for each tier is non-empty and holds only catalog entries of that tier |
| `Catalog.TierPoolIsFilter` | src/pages/Index.tsx:32-62 | filtering the shipped catalog by a tier gives exactly that tier's pool |
| `Catalog.CatalogCoversEveryTier` | src/pages/Index.tsx:32-39 | with the shipped catalog, character resolution succeeds for every tier and every index draw |
| `Catalog.Draw` | src/pages/Index.tsx:61-63 | a pull's character is a catalog entry whose rarity is the resolved tier |
| `Catalog.DrawIsResolve` | src/pages/Index.tsx:61-63 | a pull's character is the result of general character resolution over the shipped catalog |
| `Catalog.CatalogIdsWellFormed` | src/pages/Index.tsx:32-39 | catalog ids are pairwise distinct and contain no '-' |
| `InstanceIds.InstanceId` | src/pages/Index.tsx:69 | a copy id is `<defId>-<decimal ts>`: it starts with `defId`, ends with the decimal rendering of `ts`, and when `defId` has no '-' the first '-' is the separator between the two |
| `InstanceIds.NatToString` | src/pages/Index.tsx:69 | a timestamp renders as a non-empty string of decimal digits with no leading zero |
| `InstanceIds.StringToNatOfNatToString` | src/pages/Index.tsx:69 | reading a rendered timestamp back gives the timestamp |
| `InstanceIds.ParseInstanceIdRoundTrip` | src/pages/Index.tsx:69 | parsing `<defId>-<ts>` gives back `defId` and `ts` when `defId` has no '-' |
| `InstanceIds.InstanceIdInjective` | src/pages/Index.tsx:69 | two copy ids are equal exactly when their definition ids and timestamps are equal |
| `InstanceIds.Instance` | src/pages/Index.tsx:69 | a copy keeps the definition's name, rarity, emoji and power |
| `InstanceIds.InstancesDistinct` | src/pages/Index.tsx:69 | two copies of one catalog definition have the same id exactly when their timestamps are equal; apart from the id, both equal the definition |
| `Game.GameState.PullEnabled` | src/pages/Index.tsx:163 | the pull button is enabled exactly when no reveal callback is scheduled and the balance is at least 100; then no character is on display |
| `Game.GameState.constructor` | src/pages/Index.tsx:43-47 | a new screen has 1000 coins, no copies, no reveal, no pulled character and level 1, and no reveal yet; it satisfies the invariant |
| `Game.GameState.Pull` | src/pages/Index.tsx:57-67 | a pull succeeds exactly when the button is enabled (no reveal pending and at least 100 coins). A refused pull reports DrawInProgress or InsufficientFunds and changes nothing. A successful pull takes exactly 100 coins, draws the character for `r` and `u` (a catalog entry of tier `Tier(r)`) and enters the reveal with that character shown. The collection and the level are unchanged, and the invariant holds |
| `Game.GameState.StartReveal` | src/pages/Index.tsx:60-68 | from an enabled state, takes 100 coins, shows the character and schedules its reveal over the current collection; the invariant holds |
| `Game.GameState.CompleteReveal` | src/pages/Index.tsx:68-72 | appends exactly one copy of the pulled character, stamped with `ts`, and keeps every earlier copy. It clears the reveal flag and the pulled character and leaves coins and level unchanged. Because `ts` is later than every earlier reveal, the invariant keeps every owned id distinct |
| `Game.AppendFreshCopy` | src/pages/Index.tsx:68-72 | appending a copy of a catalog definition revealed after every owned copy keeps all copies from the catalog and all ids pairwise distinct |
| `Game.NewCopyIdIsFresh` | src/pages/Index.tsx:69 | a copy revealed no later than some time has an id different from any copy of a catalog definition revealed after that time |
| `Game.GameState.BuyCoins` | src/pages/Index.tsx:75-77 | adds exactly `amount` coins, changes nothing else and keeps the invariant, also during a reveal |
| `Game.GameState.PlayLevel` | src/pages/Index.tsx:247-253 | clicking the current level raises the level by exactly one; clicking a level already passed changes nothing; the level never decreases and never passes 6 |
| `Game.PullAndPurchaseCommute` | src/pages/Index.tsx:57-77 | from two identical screens where a pull is affordable, a pull then a purchase and a purchase then a pull end in the same state: the balance less 100 plus the amount bought, the same collection and level, and the same character on display |
| `Game.SecondPullDuringReveal` | src/pages/Index.tsx:161-163 | on a new screen a first pull succeeds with a character of its tier; a second pull during the reveal is refused with DrawInProgress, and only 100 coins are spent |
| `Game.TwoPullsTwoCopies` | src/pages/Index.tsx:57-73 | two completed pulls, revealed one after the other, leave two copies: each is its own pull's draw stamped with its reveal time, of that pull's tier. The two ids differ, and 800 coins remain |

## Left out

- Rendering, styling (`rarityColors`, `rarityGlow`), animations and the UI component imports are presentation only.
- Navigation (`currentView`) is view switching with no contract.
- `Math.random()` and `Date.now()` are nondeterministic host calls. They are parameters here: `r` is the tier draw (`Math.random() * 100`), `u` is the index draw in [0, 1), and `ts` is the reveal timestamp in milliseconds.
- The 50/25/15/10 odds are a claim about a probability distribution, and no per-call contract can state it. The model proves only that each tier's interval on [0, 100) is as wide as its shown percentage.
- Floating point is not modelled: `r`, `u` and `u * n` are exact reals, and coins are unbounded integers. JavaScript numbers hold integers exactly up to 2^53.
- Game.GameState.CompleteReveal: `Date.now()` moving forward is an assumption about the host clock. The method requires `ts` to be later than the previous reveal (in the source two reveals are at least 3000 ms apart, since a pull is refused during a reveal). Distinct ids in the collection rest on it.
- The 3000 ms delay of the reveal is not modelled. Completion is the explicit step `CompleteReveal`, and its precondition that a reveal is pending says that the callback exists only after a pull.
- React's batching of state updates is not modelled. Each handler is one atomic step.
- The stale-closure behaviour is modelled: the reveal callback appends to the collection it captured at the pull. The invariant proves that this is still the current collection.
- Shop price labels such as `'$2.99'` are decorative strings with no logic.
- Game.GameState.BuyCoins: the amount is a natural number because the only callers pass the pack sizes 500, 1500 and 5000. A negative credit is not modelled.
- Game.GameState.PlayLevel: the level must be one of the listed levels 1 to 5 and at most the current level, because only those levels have a button. A click on any other level is not modelled.
- Catalog.ResolveCharacter: an empty tier pool gives None. In the source it would select `undefined` and fail later in the reveal callback. The shipped catalog never reaches this case, as `Catalog.CatalogCoversEveryTier` proves.
