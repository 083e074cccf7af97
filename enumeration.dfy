/** `getAllHDWallets`: the wallets whose keys are in the key store, ordered by the
    modification time of their ciphertext files. */
module Enumeration {
  import opened Names
  import opened KeyStore

  datatype WalletType = HDKEY

  /** A wallet as the wallet list shows it. */
  datatype Wallet = Wallet(address: string, walletType: WalletType)

  /** The wallet listed for a key alias: the alias shown with the "0x" prefix, of type HDKEY. */
  function HDWalletOf(alias: string): (w: Wallet)
    ensures w.walletType == HDKEY && StartsWith(w.address, "0x")
  {
    Wallet(HexPrefixed(alias), HDKEY)
  }

  /** An alias is listed when it is not a backup alias and its ciphertext file exists. */
  predicate Listed(s: Stores, alias: string)
  {
    !Contains(alias, NO_AUTH_LABEL) && Ciphertext(alias) in s.files
  }

  /** The date of a listed key: the last-modification time of its ciphertext file. */
  function Date(s: Stores, alias: string): int
    requires Ciphertext(alias) in s.files
  {
    s.files[Ciphertext(alias)].modified
  }

  /** The aliases of the key store's enumeration that are listed, in enumeration order. */
  function Qualifying(s: Stores, order: seq<string>): (q: seq<string>)
    ensures |q| <= |order|
    ensures forall i :: 0 <= i < |q| ==> Listed(s, q[i])
    decreases |order|
  {
    if order == [] then []
    else
      var last := order[|order| - 1];
      Qualifying(s, order[..|order| - 1]) + (if Listed(s, last) then [last] else [])
  }

  lemma {:induction false} QualifyingMembers(s: Stores, order: seq<string>, alias: string)
    ensures alias in Qualifying(s, order) <==> alias in order && Listed(s, alias)
    decreases |order|
  {
    if order != [] {
      var init := order[..|order| - 1];
      QualifyingMembers(s, init, alias);
      assert order == init + [order[|order| - 1]];
    }
  }

  /** `fileDates` after the enumeration loop: the date of each listed alias, in order. */
  function Dates(s: Stores, q: seq<string>): (ds: seq<int>)
    requires forall i :: 0 <= i < |q| ==> Ciphertext(q[i]) in s.files
    ensures |ds| == |q|
    ensures forall i :: 0 <= i < |q| ==> ds[i] == Date(s, q[i])
  {
    seq(|q|, i requires 0 <= i < |q| => Date(s, q[i]))
  }

  /** `walletMap` after the enumeration loop: each listed alias's wallet put under its date,
      a later alias replacing an earlier one of the same date. */
  function WalletMap(s: Stores, q: seq<string>): (m: map<int, Wallet>)
    requires forall i :: 0 <= i < |q| ==> Ciphertext(q[i]) in s.files
    ensures forall i :: 0 <= i < |q| ==> Date(s, q[i]) in m
    decreases |q|
  {
    if q == [] then map[]
    else
      var last := q[|q| - 1];
      var init := q[..|q| - 1];
      assert forall i :: 0 <= i < |init| ==> init[i] == q[i];
      WalletMap(s, init)[Date(s, last) := HDWalletOf(last)]
  }

  /** One step of the enumeration loop: what `fileDates` and `walletMap` become. */
  lemma CollectStep(s: Stores, order: seq<string>, alias: string)
    ensures var q := Qualifying(s, order);
      var q' := Qualifying(s, order + [alias]);
      if Listed(s, alias) then
        && q' == q + [alias]
        && Dates(s, q') == Dates(s, q) + [Date(s, alias)]
        && WalletMap(s, q') == WalletMap(s, q)[Date(s, alias) := HDWalletOf(alias)]
      else q' == q
  {
    QualifyingSnoc(s, order, alias);
    if Listed(s, alias) {
      DatesSnoc(s, Qualifying(s, order), alias);
      WalletMapSnoc(s, Qualifying(s, order), alias);
    }
  }

  /** One more alias enumerated: it is appended to the listed aliases if listed. */
  lemma QualifyingSnoc(s: Stores, order: seq<string>, alias: string)
    ensures Qualifying(s, order + [alias]) == Qualifying(s, order) + (if Listed(s, alias) then [alias] else [])
  {
    assert (order + [alias])[..|order|] == order;
  }

  lemma DatesSnoc(s: Stores, q: seq<string>, alias: string)
    requires forall i :: 0 <= i < |q| ==> Ciphertext(q[i]) in s.files
    requires Ciphertext(alias) in s.files
    ensures Dates(s, q + [alias]) == Dates(s, q) + [Date(s, alias)]
  {
  }

  lemma WalletMapSnoc(s: Stores, q: seq<string>, alias: string)
    requires forall i :: 0 <= i < |q| ==> Ciphertext(q[i]) in s.files
    requires Ciphertext(alias) in s.files
    ensures WalletMap(s, q + [alias]) == WalletMap(s, q)[Date(s, alias) := HDWalletOf(alias)]
  {
    assert (q + [alias])[..|q|] == q;
  }

  /** The last alias of `q` with date `d`: the one whose wallet `walletMap` holds under `d`. */
  function LastWithDate(s: Stores, q: seq<string>, d: int): (a: string)
    requires forall i :: 0 <= i < |q| ==> Ciphertext(q[i]) in s.files
    requires d in Dates(s, q)
    ensures a in q && Ciphertext(a) in s.files && Date(s, a) == d
    decreases |q|
  {
    var last := q[|q| - 1];
    var init := q[..|q| - 1];
    if Date(s, last) == d then last
    else
      assert forall i :: 0 <= i < |init| ==> init[i] == q[i];
      assert Dates(s, q) == Dates(s, init) + [Date(s, last)];
      LastWithDate(s, init, d)
  }

  lemma {:induction false} WalletMapHoldsLast(s: Stores, q: seq<string>, d: int)
    requires forall i :: 0 <= i < |q| ==> Ciphertext(q[i]) in s.files
    requires d in Dates(s, q)
    ensures WalletMap(s, q)[d] == HDWalletOf(LastWithDate(s, q, d))
    decreases |q|
  {
    var last := q[|q| - 1];
    var init := q[..|q| - 1];
    assert forall i :: 0 <= i < |init| ==> init[i] == q[i];
    if Date(s, last) != d {
      assert Dates(s, q) == Dates(s, init) + [Date(s, last)];
      WalletMapHoldsLast(s, init, d);
    }
  }

  /** When no two aliases of `q` share a date, the last alias with an alias's date is that alias. */
  predicate DistinctDates(s: Stores, q: seq<string>)
    requires forall i :: 0 <= i < |q| ==> Ciphertext(q[i]) in s.files
  {
    forall i, j :: 0 <= i < j < |q| ==> Date(s, q[i]) != Date(s, q[j])
  }

  lemma {:induction false} LastWithDateDistinct(s: Stores, q: seq<string>, k: nat)
    requires forall i :: 0 <= i < |q| ==> Ciphertext(q[i]) in s.files
    requires DistinctDates(s, q) && k < |q|
    ensures Date(s, q[k]) in Dates(s, q)
    ensures LastWithDate(s, q, Date(s, q[k])) == q[k]
    decreases |q|
  {
    assert Dates(s, q)[k] == Date(s, q[k]);
    var last := q[|q| - 1];
    var init := q[..|q| - 1];
    if k < |q| - 1 {
      assert forall i :: 0 <= i < |init| ==> init[i] == q[i];
      assert Dates(s, q) == Dates(s, init) + [Date(s, last)];
      LastWithDateDistinct(s, init, k);
    }
  }

  // ---------------------------------------------------------------- Collections.sort

  predicate SortedDates(ds: seq<int>)
  {
    forall i, j :: 0 <= i < j < |ds| ==> ds[i] <= ds[j]
  }

  /** Insert `d` into an ordered sequence of dates. */
  function Insert(d: int, ds: seq<int>): (r: seq<int>)
    ensures multiset(r) == multiset(ds) + multiset{d}
    ensures |r| == |ds| + 1
  {
    if ds == [] then [d]
    else if d <= ds[0] then [d] + ds
    else
      assert ds == [ds[0]] + ds[1..];
      [ds[0]] + Insert(d, ds[1..])
  }

  /** A date no later than the head of an ordered sequence can be put in front of it. */
  lemma ConsSorted(x: int, rest: seq<int>)
    requires SortedDates(rest) && (rest != [] ==> x <= rest[0])
    ensures SortedDates([x] + rest)
  {
    var r := [x] + rest;
    forall i, j | 0 <= i < j < |r|
      ensures r[i] <= r[j]
    {
      assert r[j] == rest[j - 1];
      if i > 0 {
        assert r[i] == rest[i - 1];
      } else {
        assert rest[0] <= rest[j - 1];
      }
    }
  }

  lemma {:induction false} InsertSorted(d: int, ds: seq<int>)
    requires SortedDates(ds)
    ensures SortedDates(Insert(d, ds))
    ensures Insert(d, ds)[0] == if ds == [] || d <= ds[0] then d else ds[0]
    decreases |ds|
  {
    if ds == [] {
    } else if d <= ds[0] {
      ConsSorted(d, ds);
    } else {
      InsertSorted(d, ds[1..]);
      ConsSorted(ds[0], Insert(d, ds[1..]));
    }
  }

  /** `Collections.sort(fileDates)`: the dates in ascending order. */
  function SortDates(ds: seq<int>): (r: seq<int>)
    ensures multiset(r) == multiset(ds)
    ensures |r| == |ds|
  {
    if ds == [] then []
    else
      assert ds == [ds[0]] + ds[1..];
      Insert(ds[0], SortDates(ds[1..]))
  }

  lemma {:induction false} SortDatesSorted(ds: seq<int>)
    ensures SortedDates(SortDates(ds))
    decreases |ds|
  {
    if ds != [] {
      SortDatesSorted(ds[1..]);
      InsertSorted(ds[0], SortDates(ds[1..]));
    }
  }

  // ---------------------------------------------------------------- the list

  /** The sorted dates of the listed aliases of an enumeration. */
  function SortedListedDates(s: Stores, order: seq<string>): seq<int>
  {
    var q := Qualifying(s, order);
    SortDates(Dates(s, q))
  }

  /** `getAllHDWallets` for an enumeration order of the key store's aliases: for each date in
      ascending order, the wallet `walletMap` holds under it. */
  function Enumerate(s: Stores, order: seq<string>): (r: seq<Wallet>)
    ensures |r| == |Qualifying(s, order)|
  {
    var q := Qualifying(s, order);
    var ds := SortDates(Dates(s, q));
    var m := WalletMap(s, q);
    seq(|ds|, i requires 0 <= i < |ds| =>
      assert ds[i] in multiset(Dates(s, q));
      m[ds[i]])
  }

  /** Entry `k` of the list is what `walletMap` holds under the `k`-th smallest date. */
  lemma EnumerateAll(s: Stores, order: seq<string>)
    ensures var q := Qualifying(s, order);
      var ds := SortDates(Dates(s, q));
      && |Enumerate(s, order)| == |ds|
      && forall k :: 0 <= k < |ds| ==> ds[k] in WalletMap(s, q) && Enumerate(s, order)[k] == WalletMap(s, q)[ds[k]]
  {
    var q := Qualifying(s, order);
    var ds := SortDates(Dates(s, q));
    forall k | 0 <= k < |ds|
      ensures ds[k] in WalletMap(s, q)
    {
      assert ds[k] in multiset(Dates(s, q));
    }
  }

  /** Entry `i` of the list is the wallet `walletMap` holds under the `i`-th smallest date. */
  lemma EnumerateEntry(s: Stores, order: seq<string>, i: nat)
    requires i < |SortedListedDates(s, order)|
    ensures var q := Qualifying(s, order);
      var ds := SortedListedDates(s, order);
      && ds[i] in Dates(s, q)
      && i < |Enumerate(s, order)|
      && Enumerate(s, order)[i] == HDWalletOf(LastWithDate(s, q, ds[i]))
      && LastWithDate(s, q, ds[i]) in order
  {
    var q := Qualifying(s, order);
    var ds := SortDates(Dates(s, q));
    assert ds[i] in multiset(Dates(s, q));
    WalletMapHoldsLast(s, q, ds[i]);
    QualifyingMembers(s, order, LastWithDate(s, q, ds[i]));
  }

  /** One wallet is listed per listed alias; entry `i` is the wallet of a listed alias (never a
      backup) whose date is the `i`-th smallest; so the list is in date order. */
  lemma EnumerateListsByDate(s: Stores, order: seq<string>)
    ensures var q := Qualifying(s, order);
      var ds := SortedListedDates(s, order);
      var r := Enumerate(s, order);
      && |r| == |q| && |ds| == |q|
      && (forall i :: 0 <= i < |r| ==>
            && ds[i] in Dates(s, q)
            && var a := LastWithDate(s, q, ds[i]);
            && r[i] == HDWalletOf(a) && a in order && Listed(s, a)
            && !Contains(a, NO_AUTH_LABEL) && Date(s, a) == ds[i])
      && (forall i, j :: 0 <= i < j < |r| ==> ds[i] <= ds[j])
  {
    var q := Qualifying(s, order);
    SortDatesSorted(Dates(s, q));
    forall i | 0 <= i < |Enumerate(s, order)|
      ensures var ds := SortedListedDates(s, order);
        && ds[i] in Dates(s, q)
        && Enumerate(s, order)[i] == HDWalletOf(LastWithDate(s, q, ds[i]))
        && LastWithDate(s, q, ds[i]) in order
    {
      EnumerateEntry(s, order, i);
    }
  }

  /** When no two listed keys share a date, every listed alias's wallet is in the list. */
  lemma EnumerateComplete(s: Stores, order: seq<string>, alias: string)
    requires DistinctDates(s, Qualifying(s, order))
    requires alias in order && Listed(s, alias)
    ensures HDWalletOf(alias) in Enumerate(s, order)
  {
    var q := Qualifying(s, order);
    QualifyingMembers(s, order, alias);
    var k :| 0 <= k < |q| && q[k] == alias;
    LastWithDateDistinct(s, q, k);
    var ds := SortDates(Dates(s, q));
    assert Date(s, alias) in multiset(ds);
    var i :| 0 <= i < |ds| && ds[i] == Date(s, alias);
    EnumerateListsByDate(s, order);
    assert Enumerate(s, order)[i] == HDWalletOf(alias);
  }

  /** Two keys whose ciphertext files carry the same date. */
  function CollidingStores(): Stores
  {
    Stores(map["0xaa" := KeyEntry(Tiers.NO_AUTHENTICATION, false, 0),
               "0xbb" := KeyEntry(Tiers.NO_AUTHENTICATION, false, 0)],
           map[Ciphertext("0xaa") := Blob([], 5), Ciphertext("0xbb") := Blob([], 5)])
  }

  lemma CollidingQualifying()
    ensures Qualifying(CollidingStores(), ["0xaa", "0xbb"]) == ["0xaa", "0xbb"]
  {
    var s := CollidingStores();
    assert !Contains("0xaa", NO_AUTH_LABEL);
    assert !Contains("0xbb", NO_AUTH_LABEL);
    assert ["0xaa", "0xbb"][..1] == ["0xaa"];
    assert Qualifying(s, ["0xaa"]) == ["0xaa"];
  }

  lemma CollidingMap()
    ensures Dates(CollidingStores(), ["0xaa", "0xbb"]) == [5, 5]
    ensures WalletMap(CollidingStores(), ["0xaa", "0xbb"]) == map[5 := HDWalletOf("0xbb")]
  {
    assert ["0xaa", "0xbb"][..1] == ["0xaa"];
  }

  lemma SortTwoEqual()
    ensures SortDates([5, 5]) == [5, 5]
  {
    assert SortDates([5]) == [5];
    assert [5, 5][1..] == [5];
  }

  /** Two keys whose ciphertext files share a date: the later-enumerated key's wallet is
      listed twice and the other key's wallet not at all. */
  lemma DateCollisionDuplicates()
    ensures Enumerate(CollidingStores(), ["0xaa", "0xbb"]) == [HDWalletOf("0xbb"), HDWalletOf("0xbb")]
    ensures HDWalletOf("0xaa") !in Enumerate(CollidingStores(), ["0xaa", "0xbb"])
  {
    CollidingQualifying();
    CollidingMap();
    SortTwoEqual();
  }

  // ---------------------------------------------------------------- the two loops

  /** The enumeration loop of `getAllHDWallets`: visits every alias of the key store once, in
      the order returned as `order`, collecting the dates of the listed aliases in `fileDates`
      and each listed alias's wallet under its date in `walletMap`. */
  method CollectDates(s: Stores) returns (fileDates: seq<int>, walletMap: map<int, Wallet>, ghost order: seq<string>)
    ensures forall a :: a in order <==> a in s.keys
    ensures forall i, j :: 0 <= i < j < |order| ==> order[i] != order[j]
    ensures fileDates == Dates(s, Qualifying(s, order))
    ensures walletMap == WalletMap(s, Qualifying(s, order))
  {
    var remaining := s.keys.Keys;
    order := [];
    fileDates := [];
    walletMap := map[];
    while remaining != {}
      invariant remaining <= s.keys.Keys
      invariant forall a :: a in order <==> a in s.keys && a !in remaining
      invariant forall i, j :: 0 <= i < j < |order| ==> order[i] != order[j]
      invariant fileDates == Dates(s, Qualifying(s, order))
      invariant walletMap == WalletMap(s, Qualifying(s, order))
      decreases remaining
    {
      var alias :| alias in remaining;
      remaining := remaining - {alias};
      CollectStep(s, order, alias);
      order := order + [alias];
      if !Contains(alias, NO_AUTH_LABEL) && Ciphertext(alias) in s.files {
        var date := s.files[Ciphertext(alias)].modified;
        fileDates := fileDates + [date];
        var address := alias;
        if !StartsWith(address, "0x") {
          address := "0x" + address;
        }
        var hdKey := Wallet(address, HDKEY);
        walletMap := walletMap[date := hdKey];
      }
    }
  }

  /** The listing loop of `getAllHDWallets`: the wallet held under each of the sorted dates. */
  method ListByDate(sorted: seq<int>, walletMap: map<int, Wallet>) returns (wallets: seq<Wallet>)
    requires forall k :: 0 <= k < |sorted| ==> sorted[k] in walletMap
    ensures |wallets| == |sorted|
    ensures forall k :: 0 <= k < |sorted| ==> wallets[k] == walletMap[sorted[k]]
  {
    wallets := [];
    var i := 0;
    while i < |sorted|
      invariant 0 <= i <= |sorted| && |wallets| == i
      invariant forall k :: 0 <= k < i ==> wallets[k] == walletMap[sorted[k]]
    {
      wallets := wallets + [walletMap[sorted[i]]];
      i := i + 1;
    }
  }
}
