/** The genesis seeder's counters and enumerable indexes for tributes, nods and validators. Mapping slots are kept as
    (base slot, key), one map per base slot. */
module GenesisIndex {
  import opened Base

  // ----- Addresses as the seed file spells them -----

  function LowerChar(c: char): char {
    if 'A' <= c <= 'Z' then ((c as int) + 32) as char else c
  }

  function Lower(s: string): (r: string)
    ensures |r| == |s|
  {
    seq(|s|, i requires 0 <= i < |s| => LowerChar(s[i]))
  }

  /** Removes every occurrence of "0x", left to right. */
  function RemovePrefix(s: string): (r: string) {
    if |s| < 2 then s
    else if s[0] == '0' && s[1] == 'x' then RemovePrefix(s[2..])
    else [s[0]] + RemovePrefix(s[1..])
  }

  predicate HexDigit(c: char) {
    '0' <= c <= '9' || 'a' <= c <= 'f'
  }

  predicate IsAddress(a: string) {
    |a| == 40 && AllHex(a)
  }

  predicate AllHex(s: string) {
    forall i :: 0 <= i < |s| ==> HexDigit(s[i])
  }

  /** What the integer reader accepts: digits after at most one leading prefix. */
  predicate ReadsAsInteger(s: string) {
    var digits := if |s| >= 2 && s[0] == '0' && s[1] == 'x' then s[2..] else s;
    digits != [] && AllHex(digits)
  }

  /** The address a lower-case spelling denotes, as forty hexadecimal digits. The seeders read an owner both as bytes
      and as an integer, and fail when either reader does. */
  function AddressOf(spelling: string): (r: Option<string>) {
    var a := RemovePrefix(spelling);
    if IsAddress(a) && ReadsAsInteger(spelling) then Some(a) else None
  }

  lemma {:induction false} NothingToRemove(a: string)
    requires AllHex(a)
    ensures RemovePrefix(a) == a
  {
    if |a| >= 2 {
      assert HexDigit(a[1]);
      NothingToRemove(a[1..]);
    }
  }

  /** Every address has exactly two accepted lower-case spellings. */
  lemma TwoSpellings(s: string, a: string)
    ensures AddressOf(s) == Some(a) <==> IsAddress(a) && (s == a || s == "0x" + a)
  {
    if IsAddress(a) {
      NothingToRemove(a);
      assert ("0x" + a)[2..] == a;
      assert HexDigit(a[1]);
    }
    if AddressOf(s) == Some(a) {
      if |s| >= 2 && s[0] == '0' && s[1] == 'x' {
        NothingToRemove(s[2..]);
        assert s == "0x" + s[2..];
      } else {
        NothingToRemove(s);
      }
    }
  }

  // ----- Seeded items -----

  /** What seeding sees of an item and its id. A tribute's group is its day and its amount the nominal; a nod's group is
      its bucket and its amount the floor price. */
  datatype Item = Item(owner: string, group: nat, amount: nat, id: nat)

  function Spelling(x: Item): (s: string) {
    Lower(x.owner)
  }

  predicate Parses(x: Item) {
    AddressOf(Spelling(x)).Some?
  }

  function Owner(x: Item): (a: string)
    requires Parses(x)
  {
    AddressOf(Spelling(x)).value
  }

  predicate AllParse(xs: seq<Item>) {
    forall i :: 0 <= i < |xs| ==> Parses(xs[i])
  }

  // ----- Reference: the sub-lists an index should enumerate -----

  function OfGroup(xs: seq<Item>, g: nat): (r: seq<Item>) {
    if xs == [] then []
    else
      var n := |xs| - 1;
      OfGroup(xs[..n], g) + if xs[n].group == g then [xs[n]] else []
  }

  function OfAddress(xs: seq<Item>, a: string): (r: seq<Item>)
    requires AllParse(xs)
  {
    if xs == [] then []
    else
      var n := |xs| - 1;
      OfAddress(xs[..n], a) + if Owner(xs[n]) == a then [xs[n]] else []
  }

  function OfSpelling(xs: seq<Item>, s: string): (r: seq<Item>) {
    if xs == [] then []
    else
      var n := |xs| - 1;
      OfSpelling(xs[..n], s) + if Spelling(xs[n]) == s then [xs[n]] else []
  }

  function Total(xs: seq<Item>): (r: nat) {
    if xs == [] then 0 else Total(xs[..|xs| - 1]) + xs[|xs| - 1].amount
  }

  function Get<K>(m: map<K, nat>, k: K): (r: nat) {
    if k in m then m[k] else 0
  }

  /** No address occurs under two spellings. */
  predicate OneSpelling(xs: seq<Item>)
    requires AllParse(xs)
  {
    forall i, j :: 0 <= i < |xs| && 0 <= j < |xs| && Owner(xs[i]) == Owner(xs[j]) ==> Spelling(xs[i]) == Spelling(xs[j])
  }

  // ----- Counters that remember first-seen order -----

  datatype Counter<!K(==)> = Counter(order: seq<K>, counts: map<K, nat>)

  function Bump<K(==)>(c: Counter<K>, k: K): (r: Counter<K>) {
    Counter(if k in c.counts then c.order else c.order + [k], c.counts[k := Get(c.counts, k) + 1])
  }

  /** `order` lists every counted key once. */
  ghost predicate CounterOk<K(!new)>(c: Counter<K>) {
    && (forall k :: k in c.counts <==> k in c.order)
    && (forall i, j :: 0 <= i < j < |c.order| ==> c.order[i] != c.order[j])
  }

  function SumOf<K>(order: seq<K>, m: map<K, nat>): (r: nat) {
    if order == [] then 0 else SumOf(order[..|order| - 1], m) + Get(m, order[|order| - 1])
  }

  lemma {:induction false} SumSame<K>(order: seq<K>, m: map<K, nat>, k: K, v: nat)
    requires k !in order
    ensures SumOf(order, m[k := v]) == SumOf(order, m)
  {
    if order != [] {
      assert order[|order| - 1] in order;
      SumSame(order[..|order| - 1], m, k, v);
    }
  }

  lemma {:induction false} SumBump<K>(order: seq<K>, m: map<K, nat>, k: K)
    requires k in order && forall i, j :: 0 <= i < j < |order| ==> order[i] != order[j]
    ensures SumOf(order, m[k := Get(m, k) + 1]) == SumOf(order, m) + 1
  {
    var n := |order| - 1;
    assert order == order[..n] + [order[n]];
    if order[n] == k {
      SumSame(order[..n], m, k, Get(m, k) + 1);
    } else {
      SumBump(order[..n], m, k);
    }
  }

  lemma BumpOk<K(!new)>(c: Counter<K>, k: K)
    requires CounterOk(c)
    ensures CounterOk(Bump(c, k))
    ensures SumOf(Bump(c, k).order, Bump(c, k).counts) == SumOf(c.order, c.counts) + 1
  {
    BumpSum(c, k);
    var order := Bump(c, k).order;
    assert forall i, j :: 0 <= i < j < |order| ==> order[i] != order[j];
  }

  lemma BumpSum<K(!new)>(c: Counter<K>, k: K)
    requires CounterOk(c)
    ensures SumOf(Bump(c, k).order, Bump(c, k).counts) == SumOf(c.order, c.counts) + 1
  {
    if k in c.counts {
      SumBump(c.order, c.counts, k);
    } else {
      assert (c.order + [k])[..|c.order|] == c.order;
      SumSame(c.order, c.counts, k, 1);
    }
  }

  // ----- The index of tributes by day -----

  datatype GroupIndex = GroupIndex(counter: Counter<nat>, totals: map<nat, nat>, ids: map<(nat, nat), nat>)

  /** Count, sum and enumeration of one group all describe `sub`, and nothing else is stored for it. */
  ghost predicate GroupOk(ix: GroupIndex, g: nat, sub: seq<Item>) {
    && Get(ix.counter.counts, g) == |sub|
    && Get(ix.totals, g) == Total(sub)
    && Enumerates(ix.ids, g, sub)
  }

  /** The cells `(k, 0), (k, 1), ...` of an index hold exactly the ids of `sub`, in order. */
  ghost predicate Enumerates<K>(ids: map<(K, nat), nat>, k: K, sub: seq<Item>) {
    && (forall i: nat :: (k, i) in ids ==> i < |sub|)
    && (forall i :: 0 <= i < |sub| ==> (k, i) in ids && ids[(k, i)] == sub[i].id)
  }

  ghost predicate GroupIndexOk(ix: GroupIndex, xs: seq<Item>) {
    forall g: nat :: GroupOk(ix, g, OfGroup(xs, g))
  }

  lemma OfGroupStep(xs: seq<Item>, x: Item, g: nat)
    ensures x.group == g ==> OfGroup(xs + [x], g) == OfGroup(xs, g) + [x]
    ensures x.group != g ==> OfGroup(xs + [x], g) == OfGroup(xs, g)
  {
    assert (xs + [x])[..|xs|] == xs;
  }

  lemma TotalStep(xs: seq<Item>, x: Item)
    ensures Total(xs + [x]) == Total(xs) + x.amount
  {
    assert (xs + [x])[..|xs|] == xs;
  }

  function GroupAdd(ix: GroupIndex, x: Item): (r: GroupIndex) {
    var i := Get(ix.counter.counts, x.group);
    GroupIndex(
      Bump(ix.counter, x.group),
      ix.totals[x.group := Get(ix.totals, x.group) + x.amount],
      ix.ids[(x.group, i) := x.id])
  }

  lemma EnumeratesStep<K>(ids: map<(K, nat), nat>, k: K, sub: seq<Item>, x: Item)
    requires Enumerates(ids, k, sub)
    ensures Enumerates(ids[(k, |sub|) := x.id], k, sub + [x])
  {}

  lemma GroupAddHere(ix: GroupIndex, sub: seq<Item>, x: Item)
    requires GroupOk(ix, x.group, sub)
    ensures GroupOk(GroupAdd(ix, x), x.group, sub + [x])
  {
    TotalStep(sub, x);
    EnumeratesStep(ix.ids, x.group, sub, x);
  }

  lemma GroupAddElsewhere(ix: GroupIndex, g: nat, sub: seq<Item>, x: Item)
    requires GroupOk(ix, g, sub) && g != x.group
    ensures GroupOk(GroupAdd(ix, x), g, sub)
  {}

  lemma GroupAddOk(ix: GroupIndex, xs: seq<Item>, x: Item)
    requires GroupIndexOk(ix, xs)
    ensures GroupIndexOk(GroupAdd(ix, x), xs + [x])
  {
    forall g: nat ensures GroupOk(GroupAdd(ix, x), g, OfGroup(xs + [x], g)) {
      OfGroupStep(xs, x, g);
      if g == x.group {
        GroupAddHere(ix, OfGroup(xs, g), x);
      } else {
        GroupAddElsewhere(ix, g, OfGroup(xs, g), x);
      }
    }
  }

  // ----- The owner index -----

  /** Counters are kept per spelling; the enumeration is kept per address. */
  datatype OwnerIndex = OwnerIndex(counter: Counter<string>, ids: map<(string, nat), nat>)

  function OwnerAdd(ix: OwnerIndex, x: Item): (r: OwnerIndex)
    requires Parses(x)
  {
    OwnerIndex(Bump(ix.counter, Spelling(x)), ix.ids[(Owner(x), Get(ix.counter.counts, Spelling(x))) := x.id])
  }

  /** Every spelling is counted, and no cell lies beyond the count of some spelling of its address. */
  ghost predicate OwnerIndexOk(ix: OwnerIndex, xs: seq<Item>) {
    && (forall s :: Get(ix.counter.counts, s) == |OfSpelling(xs, s)|)
    && (forall s :: s in ix.counter.counts ==> |OfSpelling(xs, s)| > 0)
    && (forall a, i: nat :: (a, i) in ix.ids ==> Reached(xs, a, i))
  }

  ghost predicate Reached(xs: seq<Item>, a: string, i: nat) {
    exists s :: AddressOf(s) == Some(a) && i < |OfSpelling(xs, s)|
  }

  lemma OfSpellingStep(xs: seq<Item>, x: Item, s: string)
    ensures Spelling(x) == s ==> OfSpelling(xs + [x], s) == OfSpelling(xs, s) + [x]
    ensures Spelling(x) != s ==> OfSpelling(xs + [x], s) == OfSpelling(xs, s)
  {
    assert (xs + [x])[..|xs|] == xs;
  }

  lemma ReachedStep(xs: seq<Item>, x: Item, a: string, i: nat)
    requires Reached(xs, a, i)
    ensures Reached(xs + [x], a, i)
  {
    var s :| AddressOf(s) == Some(a) && i < |OfSpelling(xs, s)|;
    OfSpellingStep(xs, x, s);
    assert i < |OfSpelling(xs + [x], s)|;
  }

  lemma OwnerAddOk(ix: OwnerIndex, xs: seq<Item>, x: Item)
    requires OwnerIndexOk(ix, xs) && Parses(x)
    ensures OwnerIndexOk(OwnerAdd(ix, x), xs + [x])
  {
    var ix' := OwnerAdd(ix, x);
    forall s ensures Get(ix'.counter.counts, s) == |OfSpelling(xs + [x], s)| { OfSpellingStep(xs, x, s); }
    forall s | s in ix'.counter.counts ensures |OfSpelling(xs + [x], s)| > 0 { OfSpellingStep(xs, x, s); }
    forall a, i: nat | (a, i) in ix'.ids ensures Reached(xs + [x], a, i) {
      if (a, i) in ix.ids {
        ReachedStep(xs, x, a, i);
      } else {
        OfSpellingStep(xs, x, Spelling(x));
        assert i < |OfSpelling(xs + [x], Spelling(x))|;
      }
    }
  }

  lemma OfAddressStep(xs: seq<Item>, x: Item, a: string)
    requires AllParse(xs + [x])
    ensures AllParse(xs) && Parses(x)
    ensures Owner(x) == a ==> OfAddress(xs + [x], a) == OfAddress(xs, a) + [x]
    ensures Owner(x) != a ==> OfAddress(xs + [x], a) == OfAddress(xs, a)
  {
    assert (xs + [x])[..|xs|] == xs;
    assert (xs + [x])[|xs|] == x;
    assert forall i :: 0 <= i < |xs| ==> xs[i] == (xs + [x])[i];
  }

  /** The address's items all have this spelling. */
  predicate AllSpelled(xs: seq<Item>, s: string, a: string)
    requires AllParse(xs)
  {
    forall i :: 0 <= i < |xs| && Owner(xs[i]) == a ==> Spelling(xs[i]) == s
  }

  lemma AllSpelledStep(xs: seq<Item>, x: Item, s: string, a: string)
    requires AllParse(xs + [x]) && AllParse(xs) && Parses(x)
    ensures AllSpelled(xs + [x], s, a) <==> AllSpelled(xs, s, a) && (Owner(x) == a ==> Spelling(x) == s)
  {
    assert (xs + [x])[|xs|] == x;
    assert forall i :: 0 <= i < |xs| ==> xs[i] == (xs + [x])[i];
  }

  lemma {:induction false} AddressHoldsSpelling(xs: seq<Item>, s: string, a: string)
    requires AllParse(xs) && AddressOf(s) == Some(a)
    ensures |OfSpelling(xs, s)| <= |OfAddress(xs, a)|
    ensures |OfSpelling(xs, s)| == |OfAddress(xs, a)| <==> AllSpelled(xs, s, a)
  {
    if xs != [] {
      var before, x := xs[..|xs| - 1], xs[|xs| - 1];
      assert xs == before + [x];
      AddressHoldsSpelling(before, s, a);
      OfSpellingStep(before, x, s);
      OfAddressStep(before, x, a);
      AllSpelledStep(before, x, s, a);
    }
  }

  /** Every address enumerates exactly its items, in order. */
  ghost predicate OwnersEnumerated(ix: OwnerIndex, xs: seq<Item>)
    requires AllParse(xs)
  {
    forall a :: Enumerates(ix.ids, a, OfAddress(xs, a))
  }

  lemma OwnerAddEnumerates(ix: OwnerIndex, xs: seq<Item>, x: Item)
    requires AllParse(xs + [x]) && OneSpelling(xs + [x]) && AllParse(xs) && Parses(x)
    requires OwnerIndexOk(ix, xs) && OwnersEnumerated(ix, xs)
    ensures OwnersEnumerated(OwnerAdd(ix, x), xs + [x])
  {
    assert (xs + [x])[|xs|] == x;
    var ix' := OwnerAdd(ix, x);
    forall a ensures Enumerates(ix'.ids, a, OfAddress(xs + [x], a)) {
      OfAddressStep(xs, x, a);
      assert Enumerates(ix.ids, a, OfAddress(xs, a));
      if a == Owner(x) {
        assert forall i :: 0 <= i < |xs| ==> xs[i] == (xs + [x])[i];
        AddressHoldsSpelling(xs, Spelling(x), a);
        EnumeratesStep(ix.ids, a, OfAddress(xs, a), x);
      }
    }
  }

  lemma {:induction false} SpellingOccurs(xs: seq<Item>, s: string)
    requires |OfSpelling(xs, s)| > 0
    ensures exists i :: 0 <= i < |xs| && Spelling(xs[i]) == s
  {
    var n := |xs| - 1;
    if Spelling(xs[n]) != s {
      SpellingOccurs(xs[..n], s);
      var i :| 0 <= i < n && Spelling(xs[..n][i]) == s;
      assert Spelling(xs[i]) == s;
    }
  }

  /** An address whose items are spelled in two ways: no spelling's count reaches the address's. */
  lemma SplitAddressFallsShort(xs: seq<Item>, i: nat, j: nat, s: string)
    requires AllParse(xs) && i < |xs| && j < |xs|
    requires Owner(xs[i]) == Owner(xs[j]) && Spelling(xs[i]) != Spelling(xs[j])
    requires AddressOf(s) == Some(Owner(xs[i]))
    ensures |OfSpelling(xs, s)| < |OfAddress(xs, Owner(xs[i]))|
  {
    AddressHoldsSpelling(xs, s, Owner(xs[i]));
    assert !(Spelling(xs[i]) == s && Spelling(xs[j]) == s);
  }

  /** If some address is spelled in two ways, its enumeration is wrong. */
  lemma SplitAddressIsNotEnumerated(ix: OwnerIndex, xs: seq<Item>, i: nat, j: nat)
    requires AllParse(xs) && i < |xs| && j < |xs| && OwnerIndexOk(ix, xs)
    requires Owner(xs[i]) == Owner(xs[j]) && Spelling(xs[i]) != Spelling(xs[j])
    ensures !Enumerates(ix.ids, Owner(xs[i]), OfAddress(xs, Owner(xs[i])))
  {
    var a := Owner(xs[i]);
    SplitAddressFallsShort(xs, i, j, Spelling(xs[i]));
    var last := |OfAddress(xs, a)| - 1;
    if (a, last) in ix.ids {
      assert Reached(xs, a, last);
      var s :| AddressOf(s) == Some(a) && last < |OfSpelling(xs, s)|;
      SplitAddressFallsShort(xs, i, j, s);
    }
  }

  // ----- The count slots -----

  /** The count slots of addresses, written spelling by spelling in first-seen order. */
  function CountSlots(c: Counter<string>, n: nat): (r: map<string, nat>)
    requires n <= |c.order|
  {
    if n == 0 then map[]
    else
      var slots := CountSlots(c, n - 1);
      match AddressOf(c.order[n - 1])
      case None => slots
      case Some(a) => slots[a := Get(c.counts, c.order[n - 1])]
  }

  /** A written slot holds the count of one spelling of its address; an unwritten one means there was none. */
  lemma {:induction false} CountSlotsHold(c: Counter<string>, n: nat, a: string)
    requires n <= |c.order|
    ensures a in CountSlots(c, n) ==>
              exists k :: 0 <= k < n && AddressOf(c.order[k]) == Some(a)
                          && CountSlots(c, n)[a] == Get(c.counts, c.order[k])
    ensures a !in CountSlots(c, n) ==> forall k :: 0 <= k < n ==> AddressOf(c.order[k]) != Some(a)
  {
    if n > 0 { CountSlotsHold(c, n - 1, a); }
  }

  /** Every address's count slot is the number of its items. */
  ghost predicate CountsRight(slots: map<string, nat>, xs: seq<Item>)
    requires AllParse(xs)
  {
    forall a :: Get(slots, a) == |OfAddress(xs, a)|
  }

  lemma {:induction false} NoItems(xs: seq<Item>, a: string)
    requires AllParse(xs) && forall i :: 0 <= i < |xs| ==> Owner(xs[i]) != a
    ensures OfAddress(xs, a) == []
  {
    if xs != [] { NoItems(xs[..|xs| - 1], a); }
  }

  lemma {:induction false} SpellingCounted(xs: seq<Item>, i: nat)
    requires i < |xs|
    ensures |OfSpelling(xs, Spelling(xs[i]))| > 0
  {
    var n := |xs| - 1;
    if i < n { SpellingCounted(xs[..n], i); }
  }

  lemma CountRightAt(ix: OwnerIndex, xs: seq<Item>, a: string)
    requires AllParse(xs) && CounterOk(ix.counter) && OwnerIndexOk(ix, xs) && OneSpelling(xs)
    ensures Get(CountSlots(ix.counter, |ix.counter.order|), a) == |OfAddress(xs, a)|
  {
    var c := ix.counter;
    var slots := CountSlots(c, |c.order|);
    CountSlotsHold(c, |c.order|, a);
    if a in slots {
      var k :| 0 <= k < |c.order| && AddressOf(c.order[k]) == Some(a) && slots[a] == Get(c.counts, c.order[k]);
      var s := c.order[k];
      SpellingOccurs(xs, s);
      AddressHoldsSpelling(xs, s, a);
    } else {
      forall i | 0 <= i < |xs| ensures Owner(xs[i]) != a {
        SpellingCounted(xs, i);
        assert Spelling(xs[i]) in c.order;
      }
      NoItems(xs, a);
    }
  }

  lemma CountWrongAt(ix: OwnerIndex, xs: seq<Item>, i: nat, j: nat)
    requires AllParse(xs) && CounterOk(ix.counter) && OwnerIndexOk(ix, xs) && i < |xs| && j < |xs|
    requires Owner(xs[i]) == Owner(xs[j]) && Spelling(xs[i]) != Spelling(xs[j])
    ensures Get(CountSlots(ix.counter, |ix.counter.order|), Owner(xs[i])) < |OfAddress(xs, Owner(xs[i]))|
  {
    var c := ix.counter;
    var a := Owner(xs[i]);
    CountSlotsHold(c, |c.order|, a);
    SplitAddressFallsShort(xs, i, j, Spelling(xs[i]));
    if a in CountSlots(c, |c.order|) {
      var k :| 0 <= k < |c.order| && AddressOf(c.order[k]) == Some(a)
               && CountSlots(c, |c.order|)[a] == Get(c.counts, c.order[k]);
      SplitAddressFallsShort(xs, i, j, c.order[k]);
    }
  }

  /** The seeded owner index is right exactly when no address is spelled in two ways. */
  lemma OwnerIndexExactly(ix: OwnerIndex, xs: seq<Item>)
    requires AllParse(xs) && CounterOk(ix.counter) && OwnerIndexOk(ix, xs)
    requires OneSpelling(xs) ==> OwnersEnumerated(ix, xs)
    ensures CountsRight(CountSlots(ix.counter, |ix.counter.order|), xs) <==> OneSpelling(xs)
    ensures OwnersEnumerated(ix, xs) <==> OneSpelling(xs)
  {
    if OneSpelling(xs) {
      forall a ensures Get(CountSlots(ix.counter, |ix.counter.order|), a) == |OfAddress(xs, a)| {
        CountRightAt(ix, xs, a);
      }
    } else {
      var i, j :| 0 <= i < |xs| && 0 <= j < |xs| && Owner(xs[i]) == Owner(xs[j]) && Spelling(xs[i]) != Spelling(xs[j]);
      CountWrongAt(ix, xs, i, j);
      SplitAddressIsNotEnumerated(ix, xs, i, j);
    }
  }

  // ----- The seeder -----

  datatype Seeded = Seeded(
    totalSupply: nat, records: map<nat, Item>, groups: GroupIndex, owners: OwnerIndex, ownerCounts: map<string, nat>)

  /** No later item has this item's id. */
  predicate Latest(xs: seq<Item>, i: nat)
    requires i < |xs|
  {
    forall j :: i < j < |xs| ==> xs[j].id != xs[i].id
  }

  predicate Recorded(records: map<nat, Item>, x: Item) {
    x.id in records && records[x.id] == x
  }

  /** Each id's record is the last item seeded under it, so items with distinct ids are all recorded. */
  ghost predicate RecordsOk(records: map<nat, Item>, xs: seq<Item>) {
    forall i :: 0 <= i < |xs| && Latest(xs, i) ==> Recorded(records, xs[i])
  }

  const NO_GROUPS: GroupIndex := GroupIndex(Counter([], map[]), map[], map[])
  const NO_OWNERS: OwnerIndex := OwnerIndex(Counter([], map[]), map[])

  /** The group index and the counters' sum, for the items so far. */
  ghost predicate GroupsBuilt(groups: GroupIndex, xs: seq<Item>) {
    GroupIndexOk(groups, xs) && CounterOk(groups.counter) && SumOf(groups.counter.order, groups.counter.counts) == |xs|
  }

  /** The owner index and the counters' sum, for the items so far. */
  ghost predicate OwnersBuilt(owners: OwnerIndex, xs: seq<Item>) {
    && AllParse(xs)
    && OwnerIndexOk(owners, xs) && CounterOk(owners.counter)
    && SumOf(owners.counter.order, owners.counter.counts) == |xs|
    && (OneSpelling(xs) ==> OwnersEnumerated(owners, xs))
  }

  lemma RecordsStep(records: map<nat, Item>, xs: seq<Item>, x: Item)
    requires RecordsOk(records, xs)
    ensures RecordsOk(records[x.id := x], xs + [x])
  {
    var ys := xs + [x];
    forall i | 0 <= i < |ys| && Latest(ys, i) ensures Recorded(records[x.id := x], ys[i]) {
      if i < |xs| {
        assert ys[|xs|].id != ys[i].id;
        assert Latest(xs, i) by { assert forall j :: i < j < |xs| ==> xs[j] == ys[j]; }
      }
    }
  }

  lemma GroupsStep(groups: GroupIndex, xs: seq<Item>, x: Item)
    requires GroupsBuilt(groups, xs)
    ensures GroupsBuilt(GroupAdd(groups, x), xs + [x])
  {
    GroupAddOk(groups, xs, x);
    BumpOk(groups.counter, x.group);
  }

  lemma PrefixParses(xs: seq<Item>, x: Item)
    requires AllParse(xs) && Parses(x)
    ensures AllParse(xs + [x])
    ensures OneSpelling(xs + [x]) ==> OneSpelling(xs)
  {
    assert forall i :: 0 <= i < |xs| ==> (xs + [x])[i] == xs[i];
  }

  lemma OwnersStep(owners: OwnerIndex, xs: seq<Item>, x: Item)
    requires OwnersBuilt(owners, xs) && Parses(x)
    ensures OwnersBuilt(OwnerAdd(owners, x), xs + [x])
  {
    PrefixParses(xs, x);
    OwnerAddOk(owners, xs, x);
    BumpOk(owners.counter, Spelling(x));
    if OneSpelling(xs + [x]) { OwnerAddEnumerates(owners, xs, x); }
  }

  /** What the loop over the items computes, item by item. */
  function Records(xs: seq<Item>): (r: map<nat, Item>) {
    if xs == [] then map[] else Records(xs[..|xs| - 1])[xs[|xs| - 1].id := xs[|xs| - 1]]
  }

  function Groups(xs: seq<Item>): (r: GroupIndex) {
    if xs == [] then NO_GROUPS else GroupAdd(Groups(xs[..|xs| - 1]), xs[|xs| - 1])
  }

  function Owners(xs: seq<Item>): (r: OwnerIndex)
    requires AllParse(xs)
  {
    if xs == [] then NO_OWNERS else OwnerAdd(Owners(xs[..|xs| - 1]), xs[|xs| - 1])
  }

  lemma Last(xs: seq<Item>)
    requires xs != []
    ensures xs[..|xs| - 1] + [xs[|xs| - 1]] == xs
  {}

  /** The records are the last item of each id. */
  lemma {:induction false} RecordsAreRight(xs: seq<Item>)
    ensures RecordsOk(Records(xs), xs)
  {
    if xs != [] {
      RecordsAreRight(xs[..|xs| - 1]);
      RecordsStep(Records(xs[..|xs| - 1]), xs[..|xs| - 1], xs[|xs| - 1]);
      Last(xs);
    }
  }

  /** Each day enumerates exactly its tributes, with their number and sum, and the counts add up to the total supply. */
  lemma {:induction false} GroupsAreRight(xs: seq<Item>)
    ensures GroupsBuilt(Groups(xs), xs)
  {
    if xs != [] {
      GroupsAreRight(xs[..|xs| - 1]);
      GroupsStep(Groups(xs[..|xs| - 1]), xs[..|xs| - 1], xs[|xs| - 1]);
      Last(xs);
    }
  }

  lemma {:induction false} OwnersAreBuilt(xs: seq<Item>)
    requires AllParse(xs)
    ensures OwnersBuilt(Owners(xs), xs)
  {
    if xs != [] {
      OwnersAreBuilt(xs[..|xs| - 1]);
      OwnersStep(Owners(xs[..|xs| - 1]), xs[..|xs| - 1], xs[|xs| - 1]);
      Last(xs);
    }
  }

  /** The owner counts add up to the total supply; the owner index and the count slots are right exactly when no address
      is spelled in two ways. */
  lemma OwnersAreRight(xs: seq<Item>)
    requires AllParse(xs)
    ensures SumOf(Owners(xs).counter.order, Owners(xs).counter.counts) == |xs|
    ensures CountsRight(CountSlots(Owners(xs).counter, |Owners(xs).counter.order|), xs) <==> OneSpelling(xs)
    ensures OwnersEnumerated(Owners(xs), xs) <==> OneSpelling(xs)
  {
    OwnersAreBuilt(xs);
    OwnerIndexExactly(Owners(xs), xs);
  }

  lemma SeedStep(xs: seq<Item>, n: nat)
    requires n < |xs| && AllParse(xs[..n]) && Parses(xs[n])
    ensures AllParse(xs[..n + 1])
    ensures Records(xs[..n + 1]) == Records(xs[..n])[xs[n].id := xs[n]]
    ensures Groups(xs[..n + 1]) == GroupAdd(Groups(xs[..n]), xs[n])
    ensures Owners(xs[..n + 1]) == OwnerAdd(Owners(xs[..n]), xs[n])
  {
    assert xs[..n + 1][..n] == xs[..n];
    PrefixParses(xs[..n], xs[n]);
    Last(xs[..n + 1]);
  }

  /** The loop over the items; it stops at an owner that is no address. */
  method SeedItems(xs: seq<Item>) returns (ok: bool, records: map<nat, Item>, groups: GroupIndex, owners: OwnerIndex)
    ensures ok <==> AllParse(xs)
    ensures ok ==> records == Records(xs) && groups == Groups(xs) && owners == Owners(xs)
  {
    ok, records, groups, owners := true, map[], NO_GROUPS, NO_OWNERS;
    for n := 0 to |xs|
      invariant ok && AllParse(xs[..n])
      invariant records == Records(xs[..n]) && groups == Groups(xs[..n]) && owners == Owners(xs[..n])
    {
      var x := xs[n];
      if !Parses(x) {
        ok := false;
        return;
      }
      SeedStep(xs, n);
      records, groups, owners := records[x.id := x], GroupAdd(groups, x), OwnerAdd(owners, x);
    }
    assert xs[..|xs|] == xs;
  }

  /** The seeder. It fails exactly on an owner that is no address. */
  method Seed(xs: seq<Item>) returns (r: Option<Seeded>)
    ensures r.Some? <==> AllParse(xs)
    ensures r.Some? ==>
              var c := Owners(xs).counter;
              r.value == Seeded(|xs|, Records(xs), Groups(xs), Owners(xs), CountSlots(c, |c.order|))
  {
    var ok, records, groups, owners := SeedItems(xs);
    if !ok {
      return None;
    }
    var slots := WriteCounts(owners.counter);
    return Some(Seeded(|xs|, records, groups, owners, slots));
  }

  /** The closing loop over the spelling counters. */
  method WriteCounts(c: Counter<string>) returns (slots: map<string, nat>)
    ensures slots == CountSlots(c, |c.order|)
  {
    slots := map[];
    for k := 0 to |c.order|
      invariant slots == CountSlots(c, k)
    {
      var a := AddressOf(c.order[k]);
      if a.Some? {
        slots := slots[a.value := Get(c.counts, c.order[k])];
      }
    }
  }

  lemma SpellingsDiffer(a: string, x: Item, y: Item)
    requires IsAddress(a) && x.owner == a && y.owner == "0x" + a
    ensures Parses(x) && Parses(y) && Owner(x) == Owner(y) == a && Spelling(x) != Spelling(y)
  {
    LowerAddress(a);
    TwoSpellings(a, a);
    TwoSpellings("0x" + a, a);
    assert |Spelling(x)| != |Spelling(y)|;
  }

  lemma PairOfAddress(a: string, x: Item, y: Item)
    requires Parses(x) && Parses(y) && Owner(x) == Owner(y) == a
    ensures AllParse([x, y]) && |OfAddress([x, y], a)| == 2
    ensures OwnersBuilt(Owners([x, y]), [x, y])
  {
    assert [] + [x] == [x] && [x] + [y] == [x, y];
    OfAddressStep([], x, a);
    OfAddressStep([x], y, a);
    OwnersAreBuilt([x, y]);
  }

  /** Two items of one address, the second spelled with the prefix: the seeded count says fewer than two. */
  lemma PrefixSplitsOwner(a: string, x: Item, y: Item)
    requires IsAddress(a) && x.owner == a && y.owner == "0x" + a
    ensures AllParse([x, y]) && !OneSpelling([x, y]) && |OfAddress([x, y], a)| == 2
    ensures var c := Owners([x, y]).counter; Get(CountSlots(c, |c.order|), a) < 2
  {
    SpellingsDiffer(a, x, y);
    PairOfAddress(a, x, y);
    assert [x, y][0] == x && [x, y][1] == y;
    CountWrongAt(Owners([x, y]), [x, y], 0, 1);
  }

  lemma LowerAddress(a: string)
    requires IsAddress(a)
    ensures Lower(a) == a && Lower("0x" + a) == "0x" + a
  {
    assert forall i :: 0 <= i < |a| ==> LowerChar(a[i]) == a[i];
  }

  // ----- Nods -----

  datatype SeededNods = SeededNods(
    totalSupply: nat, records: map<nat, Item>, bucketTotals: Counter<nat>, bucketFloors: map<nat, nat>,
    owners: OwnerIndex, ownerCounts: map<string, nat>)

  function Buckets(xs: seq<Item>): (r: Counter<nat>) {
    if xs == [] then Counter([], map[]) else Bump(Buckets(xs[..|xs| - 1]), xs[|xs| - 1].group)
  }

  function Floors(xs: seq<Item>): (r: map<nat, nat>) {
    if xs == [] then map[] else Floors(xs[..|xs| - 1])[xs[|xs| - 1].group := xs[|xs| - 1].amount]
  }

  /** The nod loop stores a count and a floor price per bucket, no enumeration and no sum. */
  method SeedNodItems(xs: seq<Item>)
    returns (ok: bool, records: map<nat, Item>, totals: Counter<nat>, floors: map<nat, nat>, owners: OwnerIndex)
    ensures ok <==> AllParse(xs)
    ensures ok ==> records == Records(xs) && totals == Buckets(xs) && floors == Floors(xs) && owners == Owners(xs)
  {
    ok, records, totals, floors, owners := true, map[], Counter([], map[]), map[], NO_OWNERS;
    for n := 0 to |xs|
      invariant ok && AllParse(xs[..n])
      invariant records == Records(xs[..n]) && owners == Owners(xs[..n])
      invariant totals == Buckets(xs[..n]) && floors == Floors(xs[..n])
    {
      var x := xs[n];
      if !Parses(x) {
        ok := false;
        return;
      }
      SeedStep(xs, n);
      BucketStep(xs, n);
      records, owners := records[x.id := x], OwnerAdd(owners, x);
      totals, floors := Bump(totals, x.group), floors[x.group := x.amount];
    }
    assert xs[..|xs|] == xs;
  }

  lemma BucketStep(xs: seq<Item>, n: nat)
    requires n < |xs|
    ensures Buckets(xs[..n + 1]) == Bump(Buckets(xs[..n]), xs[n].group)
    ensures Floors(xs[..n + 1]) == Floors(xs[..n])[xs[n].group := xs[n].amount]
  {
    assert xs[..n + 1][..n] == xs[..n];
  }

  method SeedNods(xs: seq<Item>) returns (r: Option<SeededNods>)
    ensures r.Some? <==> AllParse(xs)
    ensures r.Some? ==>
              var c := Owners(xs).counter;
              r.value == SeededNods(|xs|, Records(xs), Buckets(xs), Floors(xs), Owners(xs), CountSlots(c, |c.order|))
  {
    var ok, records, totals, floors, owners := SeedNodItems(xs);
    if !ok {
      return None;
    }
    var slots := WriteCounts(owners.counter);
    return Some(SeededNods(|xs|, records, totals, floors, owners, slots));
  }

  lemma {:induction false} BucketsAreGroups(xs: seq<Item>)
    ensures Buckets(xs) == Groups(xs).counter
  {
    if xs != [] { BucketsAreGroups(xs[..|xs| - 1]); }
  }

  /** A bucket's floor price is its last nod's. */
  lemma {:induction false} FloorsAreLast(xs: seq<Item>, g: nat)
    ensures g in Floors(xs) <==> OfGroup(xs, g) != []
    ensures g in Floors(xs) ==> Floors(xs)[g] == OfGroup(xs, g)[|OfGroup(xs, g)| - 1].amount
  {
    if xs != [] { FloorsAreLast(xs[..|xs| - 1], g); }
  }

  predicate AllAt(xs: seq<Item>, price: nat) {
    forall i :: 0 <= i < |xs| ==> xs[i].amount == price
  }

  /** Bucket totals count every bucket's nods and add up to the supply; a bucket has a floor price exactly when it has a
      nod, and when its nods agree on one, as the bucket key makes them, it is theirs. */
  lemma NodsAreRight(xs: seq<Item>, g: nat)
    ensures Get(Buckets(xs).counts, g) == |OfGroup(xs, g)|
    ensures SumOf(Buckets(xs).order, Buckets(xs).counts) == |xs|
    ensures g in Floors(xs) <==> OfGroup(xs, g) != []
    ensures forall price :: OfGroup(xs, g) != [] && AllAt(OfGroup(xs, g), price) ==> Floors(xs)[g] == price
  {
    GroupsAreRight(xs);
    BucketsAreGroups(xs);
    FloorsAreLast(xs, g);
    assert GroupOk(Groups(xs), g, OfGroup(xs, g));
  }

  // ----- Validators -----

  /** Index of an address, address at an index, and stake of an address, as the validator and staking seeders write
      them. Indexes count from one. */
  datatype Registry =
    Registry(indexOf: map<string, nat>, addressAt: map<nat, string>, stakeOf: map<string, nat>, totalStaked: nat)

  predicate Distinct(addresses: seq<string>) {
    forall i, j :: 0 <= i < j < |addresses| ==> addresses[i] != addresses[j]
  }

  /** Both maps are defined on exactly the validators and undo each other. */
  ghost predicate Inverse(r: Registry, addresses: seq<string>) {
    && (forall k: nat :: k in r.addressAt <==> 1 <= k <= |addresses|)
    && (forall a :: a in r.indexOf <==> a in addresses)
    && (forall k: nat :: 1 <= k <= |addresses| ==> IndexReturns(r, k))
    && (forall a :: a in addresses ==> AddressReturns(r, a))
  }

  predicate IndexReturns(r: Registry, k: nat) {
    k in r.addressAt && r.addressAt[k] in r.indexOf && r.indexOf[r.addressAt[k]] == k
  }

  predicate AddressReturns(r: Registry, a: string) {
    a in r.indexOf && r.indexOf[a] in r.addressAt && r.addressAt[r.indexOf[a]] == a
  }

  /** Position of an address's last occurrence, counted from one. */
  function LastIndex(addresses: seq<string>, a: string): (r: nat)
    requires a in addresses
    ensures 1 <= r <= |addresses| && addresses[r - 1] == a
    ensures forall j :: r <= j < |addresses| ==> addresses[j] != a
  {
    var n := |addresses| - 1;
    if addresses[n] == a then n + 1
    else
      assert addresses == addresses[..n] + [addresses[n]];
      LastIndex(addresses[..n], a)
  }

  function SumStakes(addresses: seq<string>, stakeOf: map<string, nat>): (r: nat) {
    if addresses == [] then 0
    else SumStakes(addresses[..|addresses| - 1], stakeOf) + Get(stakeOf, addresses[|addresses| - 1])
  }

  function Repeated(n: nat, stake: nat): (r: nat) {
    if n == 0 then 0 else Repeated(n - 1, stake) + stake
  }

  lemma {:induction false} StakesAdd(addresses: seq<string>, stakeOf: map<string, nat>, stake: nat)
    requires forall i :: 0 <= i < |addresses| ==> Get(stakeOf, addresses[i]) == stake
    ensures SumStakes(addresses, stakeOf) == Repeated(|addresses|, stake)
  {
    if addresses != [] { StakesAdd(addresses[..|addresses| - 1], stakeOf, stake); }
  }

  /** What the loops leave after `addresses`: every list position, and the last position of each address. */
  ghost predicate Registered(r: Registry, addresses: seq<string>) {
    && (forall k: nat :: k in r.addressAt <==> 1 <= k <= |addresses|)
    && (forall k: nat :: 1 <= k <= |addresses| ==> r.addressAt[k] == addresses[k - 1])
    && (forall a :: a in r.indexOf <==> a in addresses)
    && (forall a :: a in addresses ==> r.indexOf[a] == LastIndex(addresses, a))
  }

  lemma RegisterStep(r: Registry, addresses: seq<string>, a: string, stakeOf: map<string, nat>, total: nat)
    requires Registered(r, addresses)
    ensures var n := |addresses| + 1;
            Registered(Registry(r.indexOf[a := n], r.addressAt[n := a], stakeOf, total), addresses + [a])
  {
    var more := addresses + [a];
    assert more[..|addresses|] == addresses;
    forall b | b in addresses && b != a ensures LastIndex(more, b) == LastIndex(addresses, b) {}
  }

  /** The validators' part of storage after a list of addresses. */
  function Validators(addresses: seq<string>, stake: nat): (r: Registry) {
    if addresses == [] then Registry(map[], map[], map[], 0)
    else
      var n := |addresses| - 1;
      var r := Validators(addresses[..n], stake);
      Registry(
        r.indexOf[addresses[n] := n + 1], r.addressAt[n + 1 := addresses[n]],
        r.stakeOf[addresses[n] := stake], r.totalStaked + stake)
  }

  method SeedValidators(addresses: seq<string>, stake: nat) returns (r: Registry)
    ensures r == Validators(addresses, stake)
  {
    r := Registry(map[], map[], map[], 0);
    for n := 0 to |addresses|
      invariant r == Validators(addresses[..n], stake)
    {
      var a := addresses[n];
      assert addresses[..n + 1][..n] == addresses[..n];
      r := Registry(r.indexOf[a := n + 1], r.addressAt[n + 1 := a], r.stakeOf[a := stake], r.totalStaked + stake);
    }
    assert addresses[..|addresses|] == addresses;
  }

  lemma {:induction false} ValidatorsRegister(addresses: seq<string>, stake: nat)
    ensures Registered(Validators(addresses, stake), addresses)
  {
    if addresses != [] {
      var n := |addresses| - 1;
      ValidatorsRegister(addresses[..n], stake);
      var r := Validators(addresses, stake);
      RegisterStep(Validators(addresses[..n], stake), addresses[..n], addresses[n], r.stakeOf, r.totalStaked);
      assert addresses[..n] + [addresses[n]] == addresses;
    }
  }

  lemma {:induction false} ValidatorsStake(addresses: seq<string>, stake: nat, i: nat)
    requires i < |addresses|
    ensures Get(Validators(addresses, stake).stakeOf, addresses[i]) == stake
  {
    var n := |addresses| - 1;
    if addresses[i] != addresses[n] { ValidatorsStake(addresses[..n], stake, i); }
  }

  lemma {:induction false} ValidatorsTotal(addresses: seq<string>, stake: nat)
    ensures Validators(addresses, stake).totalStaked == Repeated(|addresses|, stake)
  {
    if addresses != [] { ValidatorsTotal(addresses[..|addresses| - 1], stake); }
  }

  /** The index maps are mutually inverse exactly for distinct addresses; the total staked is the sum of the stakes over
      the list. */
  lemma ValidatorsAreRight(addresses: seq<string>, stake: nat)
    ensures Inverse(Validators(addresses, stake), addresses) <==> Distinct(addresses)
    ensures Validators(addresses, stake).totalStaked == SumStakes(addresses, Validators(addresses, stake).stakeOf)
  {
    ValidatorsRegister(addresses, stake);
    InverseExactly(Validators(addresses, stake), addresses);
    ValidatorsTotal(addresses, stake);
    forall i | 0 <= i < |addresses| ensures Get(Validators(addresses, stake).stakeOf, addresses[i]) == stake {
      ValidatorsStake(addresses, stake, i);
    }
    StakesAdd(addresses, Validators(addresses, stake).stakeOf, stake);
  }

  lemma InverseExactly(r: Registry, addresses: seq<string>)
    requires Registered(r, addresses)
    ensures Inverse(r, addresses) <==> Distinct(addresses)
  {
    forall a | a in addresses ensures AddressReturns(r, a) {}
    if Inverse(r, addresses) {
      forall i, j | 0 <= i < j < |addresses| ensures addresses[i] != addresses[j] {
        assert IndexReturns(r, i + 1) && IndexReturns(r, j + 1);
      }
    }
    if Distinct(addresses) {
      forall k: nat | 1 <= k <= |addresses| ensures IndexReturns(r, k) {
        assert addresses[k - 1] in addresses;
      }
    }
  }
}
