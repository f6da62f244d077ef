/**
 * Scope-cookie assignment of the GigaPan scope server
 * (opendiamond/scopeserver/gigapan/views.py, generate_cookie): the chosen
 * GigaPan ids become paths on the GigaPan server, and the configured
 * proxies are spread over the GigaPans (or the GigaPans over the proxies)
 * round-robin.  The cookie itself is produced by generate_cookie_django,
 * which is not part of this model: the result here is the sequence of its
 * calls, in the order their outputs are joined.
 */
module GigapanCookie {
  import opened Wrappers
  import opened Text
  import opened Numbers

  /** The arguments of one generate_cookie_django call. */
  datatype CookieRequest = CookieRequest(scopeUrls: seq<string>, servers: seq<string>, proxies: Option<seq<string>>)

  /** The exceptions generate_cookie can raise. */
  datatype CookieError = ValueError | IndexError

  /** "/gigapan/%d" % id. */
  function GigapanPath(id: int): string
  {
    "/gigapan/" + DecimalString(id)
  }

  /** full_url: the path on the GigaPan server's scope port 5873. */
  function FullUrl(server: string, path: string): string
  {
    "http://" + server + ":5873" + path
  }

  /** Different ids give different paths. */
  lemma GigapanPathInjective(m: int, n: int)
    requires GigapanPath(m) == GigapanPath(n)
    ensures m == n
  {
    var prefix := "/gigapan/";
    assert GigapanPath(m)[|prefix|..] == DecimalString(m);
    assert GigapanPath(n)[|prefix|..] == DecimalString(n);
    DecimalStringInjective(m, n);
  }

  /**
   * The gigapans list: each id converted with int() and rendered as a path;
   * None for the ValueError of an id int() rejects.
   */
  function Gigapans(ids: seq<string>): (r: Option<seq<string>>)
    ensures r.None? <==> exists i :: 0 <= i < |ids| && ParseInt(ids[i]).None?
    ensures r.Some? ==> |r.value| == |ids|
  {
    if forall i :: 0 <= i < |ids| ==> ParseInt(ids[i]).Some?
    then Some(seq(|ids|, i requires 0 <= i < |ids| => GigapanPath(ParseInt(ids[i]).value)))
    else None
  }

  /** Distinct ids give distinct paths. */
  lemma DistinctGigapans(ids: seq<string>)
    requires Gigapans(ids).Some?
    requires forall i, j :: 0 <= i < j < |ids| ==> ParseInt(ids[i]).value != ParseInt(ids[j]).value
    ensures Distinct(Gigapans(ids).value)
  {
    var gs := Gigapans(ids).value;
    forall i, j | 0 <= i < j < |gs|
      ensures gs[i] != gs[j]
    {
      if gs[i] == gs[j] {
        GigapanPathInjective(ParseInt(ids[i]).value, ParseInt(ids[j]).value);
      }
    }
  }

  /** No element occurs twice. */
  predicate Distinct<T(==)>(s: seq<T>)
  {
    forall i, j :: 0 <= i < j < |s| ==> s[i] != s[j]
  }

  // ---------------------------------------------------------------------
  // Round-robin distribution

  /** The key index item n goes to when g keys are taken in turn: n mod g (SlotRound). */
  function Slot(n: nat, g: nat): (j: nat)
    requires g > 0
    ensures j < g
    ensures n < g ==> j == n
  {
    if n == 0 then 0
    else
      var p := Slot(n - 1, g);
      if p + 1 == g then 0 else p + 1
  }

  /** The number of full turns over g keys before item n: n div g (SlotRound). */
  function Round(n: nat, g: nat): (r: nat)
    requires g > 0
    ensures n < g ==> r == 0
  {
    if n == 0 then 0
    else Round(n - 1, g) + (if Slot(n - 1, g) + 1 == g then 1 else 0)
  }

  /**
   * The bucket of `key` after the first n items, items[k] having been
   * appended to the bucket of keys[Slot(k)] in turn
   * (mapping.setdefault(key, []).append(item)).
   */
  function Bucket<T>(keys: seq<string>, items: seq<T>, n: nat, key: string): (b: seq<T>)
    requires |keys| > 0 && n <= |items|
    ensures |b| <= n
  {
    if n == 0 then []
    else Bucket(keys, items, n - 1, key) + (if keys[Slot(n - 1, |keys|)] == key then [items[n - 1]] else [])
  }

  /** The bucket of `key` once all items are distributed. */
  function RoundRobin<T>(keys: seq<string>, items: seq<T>, key: string): (b: seq<T>)
    requires |keys| > 0
  {
    Bucket(keys, items, |items|, key)
  }

  /** Slot and Round are the remainder and quotient of the item index. */
  lemma {:induction false} SlotRound(n: nat, g: nat)
    requires g > 0
    ensures n == Round(n, g) * g + Slot(n, g)
    ensures Slot(n, g) == n % g && Round(n, g) == n / g
  {
    if n > 0 {
      SlotRound(n - 1, g);
      var p, r := Slot(n - 1, g), Round(n - 1, g);
      if p + 1 == g {
        assert (r + 1) * g == r * g + g;
      }
    }
    DivModOf(n, g, Round(n, g), Slot(n, g));
  }

  /** The key index of the next item: (index + 1) % g, as the loop computes it. */
  lemma NextSlot(n: nat, g: nat)
    requires g > 0
    ensures Slot(n + 1, g) == (Slot(n, g) + 1) % g
  {
    var p := Slot(n, g);
    if p + 1 < g {
      DivModOf(p + 1, g, 0, p + 1);
    } else {
      DivModOf(p + 1, g, 1, 0);
    }
  }

  /** `mapping` holds the buckets of the first n items, and only non-empty ones. */
  ghost predicate Distributed<T>(keys: seq<string>, items: seq<T>, n: nat, mapping: map<string, seq<T>>)
    requires |keys| > 0 && n <= |items|
  {
    (forall j :: 0 <= j < |keys| && j < n ==> keys[j] in mapping) &&
    (forall key :: key in mapping ==> mapping[key] == Bucket(keys, items, n, key) && mapping[key] != []) &&
    (forall key :: key !in mapping ==> Bucket(keys, items, n, key) == [])
  }

  /** Appending item n to the bucket of its key keeps the buckets right. */
  lemma DistributeStep<T>(keys: seq<string>, items: seq<T>, n: nat, mapping: map<string, seq<T>>)
    requires |keys| > 0 && n < |items| && Distributed(keys, items, n, mapping)
    ensures var key := keys[Slot(n, |keys|)];
            var bucket := if key in mapping then mapping[key] else [];
            Distributed(keys, items, n + 1, mapping[key := bucket + [items[n]]])
  {
    var key := keys[Slot(n, |keys|)];
    var next := mapping[key := (if key in mapping then mapping[key] else []) + [items[n]]];
    assert forall j :: 0 <= j < |keys| && j < n + 1 ==> keys[j] in next by {
      assert n < |keys| ==> Slot(n, |keys|) == n;
    }
  }

  /**
   * The round-robin loop of generate_cookie: walks the items, appending
   * each to the bucket of the current key, the key index advancing modulo
   * the number of keys.
   */
  method Distribute<T>(keys: seq<string>, items: seq<T>) returns (mapping: map<string, seq<T>>)
    requires |keys| > 0
    ensures forall j :: 0 <= j < |keys| && j < |items| ==> keys[j] in mapping
    ensures forall key :: key in mapping ==> mapping[key] == RoundRobin(keys, items, key) && mapping[key] != []
  {
    mapping := map[];
    var index := 0;
    var n := 0;
    while n < |items|
      invariant 0 <= n <= |items| && index == Slot(n, |keys|)
      invariant Distributed(keys, items, n, mapping)
    {
      var key := keys[index];
      var bucket := if key in mapping then mapping[key] else [];
      DistributeStep(keys, items, n, mapping);
      mapping := mapping[key := bucket + [items[n]]];
      NextSlot(n, |keys|);
      index := (index + 1) % |keys|;
      n := n + 1;
    }
  }

  /**
   * With distinct keys, after n items the bucket of keys[j] holds one item
   * per full turn, plus one if j comes before the current key index.
   */
  lemma {:induction false} BucketSize<T>(keys: seq<string>, items: seq<T>, n: nat, j: nat)
    requires |keys| > 0 && Distinct(keys) && j < |keys| && n <= |items|
    ensures |Bucket(keys, items, n, keys[j])| ==
            Round(n, |keys|) + (if j < Slot(n, |keys|) then 1 else 0)
  {
    if n > 0 {
      BucketSize(keys, items, n - 1, j);
      assert keys[Slot(n - 1, |keys|)] == keys[j] <==> Slot(n - 1, |keys|) == j;
    }
  }

  /** A bucket only grows as items are added. */
  lemma {:induction false} BucketPrefix<T>(keys: seq<string>, items: seq<T>, m: nat, n: nat, key: string)
    requires |keys| > 0 && m <= n <= |items|
    ensures Bucket(keys, items, m, key) <= Bucket(keys, items, n, key)
  {
    if m < n {
      BucketPrefix(keys, items, m, n - 1, key);
    }
  }

  /** Item k lands in the bucket of key Slot(k), at position Round(k). */
  lemma ItemPlacement<T>(keys: seq<string>, items: seq<T>, k: nat)
    requires |keys| > 0 && Distinct(keys) && k < |items|
    ensures Round(k, |keys|) < |RoundRobin(keys, items, keys[Slot(k, |keys|)])|
    ensures RoundRobin(keys, items, keys[Slot(k, |keys|)])[Round(k, |keys|)] == items[k]
  {
    var g := |keys|;
    var key := keys[Slot(k, g)];
    BucketSize(keys, items, k, Slot(k, g));
    BucketPrefix(keys, items, k + 1, |items|, key);
  }

  /**
   * The index of the m-th item that lands on key j when g keys take turns:
   * j + m*g (ItemIndexValue), counted up g at a time.
   */
  function ItemIndex(j: nat, m: nat, g: nat): nat
  {
    if m == 0 then j else ItemIndex(j, m - 1, g) + g
  }

  /** The m-th item of key j is item j + m*g. */
  lemma {:induction false} ItemIndexValue(j: nat, m: nat, g: nat)
    ensures ItemIndex(j, m, g) == j + m * g
  {
    if m > 0 {
      ItemIndexValue(j, m - 1, g);
      assert (m - 1) * g + g == m * g;
    }
  }

  /**
   * Bucket b of key j, after n items, holds exactly items j, j + g,
   * j + 2g, ... below n, in that order: its m-th element is item
   * ItemIndex(j, m, g), and the next item of that key is not yet reached.
   */
  ghost predicate HoldsEvery<T>(b: seq<T>, items: seq<T>, j: nat, g: nat, n: nat)
    requires n <= |items|
  {
    (forall m :: 0 <= m < |b| ==> ItemIndex(j, m, g) < n && b[m] == items[ItemIndex(j, m, g)]) &&
    n <= ItemIndex(j, |b|, g)
  }

  /** With distinct keys, the bucket of keys[j] after n items holds items j, j + g, ... below n. */
  lemma {:induction false} BucketContent<T>(keys: seq<string>, items: seq<T>, n: nat, j: nat)
    requires |keys| > 0 && Distinct(keys) && j < |keys| && n <= |items|
    ensures HoldsEvery(Bucket(keys, items, n, keys[j]), items, j, |keys|, n)
  {
    if n > 0 {
      BucketContent(keys, items, n - 1, j);
      if Slot(n - 1, |keys|) == j {
        BucketHit(keys, items, n, j);
      } else {
        BucketMiss(keys, items, n, j);
      }
    }
  }

  /** Item n - 1 is the next item of key j: it joins the end of the bucket. */
  lemma BucketHit<T>(keys: seq<string>, items: seq<T>, n: nat, j: nat)
    requires |keys| > 0 && Distinct(keys) && j < |keys| && 0 < n <= |items|
    requires Slot(n - 1, |keys|) == j
    requires HoldsEvery(Bucket(keys, items, n - 1, keys[j]), items, j, |keys|, n - 1)
    ensures HoldsEvery(Bucket(keys, items, n, keys[j]), items, j, |keys|, n)
  {
    var g := |keys|;
    var b0 := Bucket(keys, items, n - 1, keys[j]);
    var b := Bucket(keys, items, n, keys[j]);
    assert n - 1 == ItemIndex(j, |b0|, g) by {
      BucketSize(keys, items, n - 1, j);
      SlotRound(n - 1, g);
      ItemIndexValue(j, |b0|, g);
    }
    assert b == b0 + [items[n - 1]];
    forall m | 0 <= m < |b|
      ensures ItemIndex(j, m, g) < n && b[m] == items[ItemIndex(j, m, g)]
    {
      if m < |b0| {
        assert b[m] == b0[m];
      }
    }
    assert ItemIndex(j, |b|, g) == ItemIndex(j, |b0|, g) + g;
  }

  /** Item n - 1 belongs to another key: the bucket of key j stays as it was. */
  lemma BucketMiss<T>(keys: seq<string>, items: seq<T>, n: nat, j: nat)
    requires |keys| > 0 && Distinct(keys) && j < |keys| && 0 < n <= |items|
    requires Slot(n - 1, |keys|) != j
    requires HoldsEvery(Bucket(keys, items, n - 1, keys[j]), items, j, |keys|, n - 1)
    ensures HoldsEvery(Bucket(keys, items, n, keys[j]), items, j, |keys|, n)
  {
    var g := |keys|;
    var b0 := Bucket(keys, items, n - 1, keys[j]);
    assert keys[Slot(n - 1, g)] != keys[j];
    assert Bucket(keys, items, n, keys[j]) == b0;
    if n - 1 == ItemIndex(j, |b0|, g) {
      ItemIndexValue(j, |b0|, g);
      SlotRound(n - 1, g);
      DivModOf(n - 1, g, |b0|, j);
      assert false;
    }
  }

  /**
   * Every item is placed exactly once: bucket j (for distinct keys) holds
   * exactly the items whose index is j mod g, in index order, and item k
   * is at position k div g of bucket k mod g.
   */
  lemma RoundRobinExact<T>(keys: seq<string>, items: seq<T>)
    requires |keys| > 0 && Distinct(keys)
    ensures forall j, m :: 0 <= j < |keys| && 0 <= m < |RoundRobin(keys, items, keys[j])| ==>
              ItemIndex(j, m, |keys|) < |items| && RoundRobin(keys, items, keys[j])[m] == items[ItemIndex(j, m, |keys|)]
    ensures forall j :: 0 <= j < |keys| ==> |items| <= ItemIndex(j, |RoundRobin(keys, items, keys[j])|, |keys|)
    ensures forall k :: 0 <= k < |items| ==>
              Round(k, |keys|) < |RoundRobin(keys, items, keys[Slot(k, |keys|)])| &&
              RoundRobin(keys, items, keys[Slot(k, |keys|)])[Round(k, |keys|)] == items[k]
    ensures forall k :: 0 <= k < |items| ==> Slot(k, |keys|) == k % |keys| && Round(k, |keys|) == k / |keys|
  {
    forall j | 0 <= j < |keys|
      ensures HoldsEvery(RoundRobin(keys, items, keys[j]), items, j, |keys|, |items|)
    {
      BucketContent(keys, items, |items|, j);
    }
    forall k | 0 <= k < |items|
      ensures Round(k, |keys|) < |RoundRobin(keys, items, keys[Slot(k, |keys|)])|
      ensures RoundRobin(keys, items, keys[Slot(k, |keys|)])[Round(k, |keys|)] == items[k]
      ensures Slot(k, |keys|) == k % |keys| && Round(k, |keys|) == k / |keys|
    {
      ItemPlacement(keys, items, k);
      SlotRound(k, |keys|);
    }
  }

  /** With at least g items every one of g keys has had a full turn. */
  lemma {:induction false} RoundAtLeastOne(n: nat, g: nat)
    requires g > 0 && n >= g
    ensures Round(n, g) >= 1
    decreases n
  {
    if n > g {
      RoundAtLeastOne(n - 1, g);
    } else {
      assert Slot(n - 1, g) == n - 1;
    }
  }

  /**
   * Buckets differ in size by at most one, and with at least as many items
   * as keys every bucket is non-empty.
   */
  lemma RoundRobinBalanced<T>(keys: seq<string>, items: seq<T>)
    requires |keys| > 0 && Distinct(keys)
    ensures forall j1, j2 :: 0 <= j1 < |keys| && 0 <= j2 < |keys| ==>
              |RoundRobin(keys, items, keys[j1])| <= |RoundRobin(keys, items, keys[j2])| + 1
    ensures |items| >= |keys| ==> forall j :: 0 <= j < |keys| ==> |RoundRobin(keys, items, keys[j])| >= 1
  {
    var g := |keys|;
    forall j1, j2 | 0 <= j1 < g && 0 <= j2 < g
      ensures |RoundRobin(keys, items, keys[j1])| <= |RoundRobin(keys, items, keys[j2])| + 1
    {
      BucketSize(keys, items, |items|, j1);
      BucketSize(keys, items, |items|, j2);
    }
    if |items| >= g {
      RoundAtLeastOne(|items|, g);
      forall j | 0 <= j < g
        ensures |RoundRobin(keys, items, keys[j])| >= 1
      {
        BucketSize(keys, items, |items|, j);
      }
    }
  }

  // ---------------------------------------------------------------------
  // generate_cookie

  /** The call for gigapan i when proxies outnumber gigapans. */
  function GigapanRequest(server: string, gigapans: seq<string>, proxies: seq<string>, i: int): (c: CookieRequest)
    requires 0 <= i < |gigapans|
  {
    var ps := RoundRobin(gigapans, proxies, gigapans[i]);
    if |ps| > 1 then CookieRequest([gigapans[i]], [server], Some(ps))
    else CookieRequest([FullUrl(server, gigapans[i])], ps, None)
  }

  /** The full URLs of the gigapans. */
  function FullUrls(server: string, gigapans: seq<string>): (urls: seq<string>)
    ensures |urls| == |gigapans|
    ensures forall i :: 0 <= i < |gigapans| ==> urls[i] == FullUrl(server, gigapans[i])
  {
    seq(|gigapans|, i requires 0 <= i < |gigapans| => FullUrl(server, gigapans[i]))
  }

  /** The call for proxy j when proxies do not outnumber gigapans. */
  function ProxyRequest(server: string, gigapans: seq<string>, proxies: seq<string>, j: int): (c: CookieRequest)
    requires 0 <= j < |proxies|
  {
    CookieRequest(RoundRobin(proxies, FullUrls(server, gigapans), proxies[j]), [proxies[j]], None)
  }

  /** One call per gigapan, in gigapan order. */
  function GigapanRequests(server: string, gigapans: seq<string>, proxies: seq<string>): (cs: seq<CookieRequest>)
    ensures |cs| == |gigapans|
    ensures forall i :: 0 <= i < |gigapans| ==> cs[i] == GigapanRequest(server, gigapans, proxies, i)
  {
    seq(|gigapans|, i requires 0 <= i < |gigapans| => GigapanRequest(server, gigapans, proxies, i))
  }

  /** One call per proxy, in proxy order. */
  function ProxyRequests(server: string, gigapans: seq<string>, proxies: seq<string>): (cs: seq<CookieRequest>)
    ensures |cs| == |proxies|
    ensures forall j :: 0 <= j < |proxies| ==> cs[j] == ProxyRequest(server, gigapans, proxies, j)
  {
    seq(|proxies|, j requires 0 <= j < |proxies| => ProxyRequest(server, gigapans, proxies, j))
  }

  /**
   * The calls generate_cookie makes once the gigapans list is built, in
   * join order: one per element of the shorter of the two lists, or
   * IndexError when exactly one of them is empty.
   */
  function CookieRequests(server: string, gigapans: seq<string>, proxies: seq<string>): (r: Result<seq<CookieRequest>, CookieError>)
    ensures r.Err? <==> (|gigapans| == 0) != (|proxies| == 0)
    ensures r.Err? ==> r.error == IndexError
    ensures r.Ok? ==> |r.value| == if |proxies| > |gigapans| then |gigapans| else |proxies|
  {
    if |proxies| > |gigapans| then
      if |gigapans| == 0 then Err(IndexError) else Ok(GigapanRequests(server, gigapans, proxies))
    else
      if |proxies| == 0 && |gigapans| > 0 then Err(IndexError) else Ok(ProxyRequests(server, gigapans, proxies))
  }

  /** The loop over the gigapans when proxies outnumber them. */
  method GigapanCookies(server: string, gigapans: seq<string>, proxies: seq<string>)
    returns (cookies: seq<CookieRequest>)
    requires 0 < |gigapans| < |proxies|
    ensures cookies == GigapanRequests(server, gigapans, proxies)
  {
    var mapping := Distribute(gigapans, proxies);
    ghost var spec := GigapanRequests(server, gigapans, proxies);
    cookies := [];
    for i := 0 to |gigapans|
      invariant cookies == spec[..i]
    {
      var gigapan := gigapans[i];
      assert gigapan in mapping;
      var ps := mapping[gigapan];
      assert spec[i] == GigapanRequest(server, gigapans, proxies, i);
      if |ps| > 1 {
        cookies := cookies + [CookieRequest([gigapan], [server], Some(ps))];
      } else {
        cookies := cookies + [CookieRequest([FullUrl(server, gigapan)], ps, None)];
      }
      assert spec[..i + 1] == spec[..i] + [spec[i]];
    }
    assert spec[..|gigapans|] == spec;
  }

  /** The loop over the proxies when they do not outnumber the gigapans. */
  method ProxyCookies(server: string, gigapans: seq<string>, proxies: seq<string>)
    returns (cookies: seq<CookieRequest>)
    requires 0 < |proxies| <= |gigapans|
    ensures cookies == ProxyRequests(server, gigapans, proxies)
  {
    var urls := FullUrls(server, gigapans);
    var mapping := Distribute(proxies, urls);
    ghost var spec := ProxyRequests(server, gigapans, proxies);
    cookies := [];
    for j := 0 to |proxies|
      invariant cookies == spec[..j]
    {
      assert proxies[j] in mapping;
      assert spec[j] == ProxyRequest(server, gigapans, proxies, j);
      cookies := cookies + [CookieRequest(mapping[proxies[j]], [proxies[j]], None)];
      assert spec[..j + 1] == spec[..j] + [spec[j]];
    }
    assert spec[..|proxies|] == spec;
  }

  /**
   * generate_cookie: ValueError for an id int() rejects; IndexError when
   * exactly one of the gigapans and the proxies is empty; otherwise the
   * generate_cookie_django calls whose outputs are joined into the cookie.
   */
  method GenerateCookie(ids: seq<string>, server: string, proxies: seq<string>)
    returns (r: Result<seq<CookieRequest>, CookieError>)
    ensures Gigapans(ids).None? ==> r == Err(ValueError)
    ensures Gigapans(ids).Some? ==> r == CookieRequests(server, Gigapans(ids).value, proxies)
    ensures Gigapans(ids).Some? ==> (r == Err(IndexError) <==> (|ids| == 0) != (|proxies| == 0))
  {
    var parsed := Gigapans(ids);
    if parsed.None? {
      return Err(ValueError);
    }
    var gigapans := parsed.value;
    if |proxies| > |gigapans| {
      if |gigapans| == 0 {
        return Err(IndexError);
      }
      var cookies := GigapanCookies(server, gigapans, proxies);
      r := Ok(cookies);
    } else if |proxies| == 0 {
      if |gigapans| > 0 {
        return Err(IndexError);
      }
      assert ProxyRequests(server, gigapans, proxies) == [];
      r := Ok([]);
    } else {
      var cookies := ProxyCookies(server, gigapans, proxies);
      r := Ok(cookies);
    }
  }

  /**
   * When proxies outnumber distinct gigapans, every gigapan gets at least
   * one proxy, and a gigapan is emitted with its relative path and the
   * server list exactly when it has more than one proxy (otherwise with its
   * full URL).  Proxy k goes to gigapan Slot(k) = k mod G, as the
   * Round(k) = (k div G)-th of its proxies (SlotRound), and gigapan i gets exactly proxies i, i + G, i + 2G, ...,
   * so every proxy is assigned once.
   */
  lemma ManyProxies(server: string, gigapans: seq<string>, proxies: seq<string>)
    requires Distinct(gigapans) && |proxies| > |gigapans| > 0
    ensures var r := CookieRequests(server, gigapans, proxies);
            r.Ok? && |r.value| == |gigapans| &&
            forall i :: 0 <= i < |gigapans| ==>
              var ps := RoundRobin(gigapans, proxies, gigapans[i]);
              |ps| >= 1 &&
              (|ps| > 1 ==> r.value[i] == CookieRequest([gigapans[i]], [server], Some(ps))) &&
              (|ps| == 1 ==> r.value[i] == CookieRequest([FullUrl(server, gigapans[i])], ps, None))
    ensures forall k :: 0 <= k < |proxies| ==>
              var ps := RoundRobin(gigapans, proxies, gigapans[Slot(k, |gigapans|)]);
              Round(k, |gigapans|) < |ps| && ps[Round(k, |gigapans|)] == proxies[k]
    ensures forall i, m :: 0 <= i < |gigapans| && 0 <= m < |RoundRobin(gigapans, proxies, gigapans[i])| ==>
              ItemIndex(i, m, |gigapans|) < |proxies| &&
              RoundRobin(gigapans, proxies, gigapans[i])[m] == proxies[ItemIndex(i, m, |gigapans|)]
  {
    RoundRobinBalanced(gigapans, proxies);
    RoundRobinExact(gigapans, proxies);
  }

  /**
   * When distinct proxies do not outnumber the gigapans, every proxy gets
   * at least one gigapan URL and the cookie for proxy j names only proxy j.
   * Gigapan k goes to proxy Slot(k) = k mod P, as its
   * Round(k) = (k div P)-th URL (SlotRound), and proxy j
   * gets exactly the URLs of gigapans j, j + P, j + 2P, ..., so every
   * gigapan is assigned once.
   */
  lemma FewProxies(server: string, gigapans: seq<string>, proxies: seq<string>)
    requires Distinct(proxies) && 0 < |proxies| <= |gigapans|
    ensures var r := CookieRequests(server, gigapans, proxies);
            r.Ok? && |r.value| == |proxies| &&
            (forall j :: 0 <= j < |proxies| ==>
               r.value[j].scopeUrls == RoundRobin(proxies, FullUrls(server, gigapans), proxies[j]) &&
               |r.value[j].scopeUrls| >= 1 && r.value[j].servers == [proxies[j]]) &&
            (forall k :: 0 <= k < |gigapans| ==>
               Round(k, |proxies|) < |r.value[Slot(k, |proxies|)].scopeUrls| &&
               r.value[Slot(k, |proxies|)].scopeUrls[Round(k, |proxies|)] == FullUrl(server, gigapans[k]))
    ensures var urls := FullUrls(server, gigapans);
            forall j, m :: 0 <= j < |proxies| && 0 <= m < |RoundRobin(proxies, urls, proxies[j])| ==>
              ItemIndex(j, m, |proxies|) < |gigapans| &&
              RoundRobin(proxies, urls, proxies[j])[m] == FullUrl(server, gigapans[ItemIndex(j, m, |proxies|)])
  {
    var urls := FullUrls(server, gigapans);
    var p := |proxies|;
    RoundRobinBalanced(proxies, urls);
    RoundRobinExact(proxies, urls);
    forall j, m | 0 <= j < p && 0 <= m < |RoundRobin(proxies, urls, proxies[j])|
      ensures ItemIndex(j, m, p) < |gigapans|
      ensures RoundRobin(proxies, urls, proxies[j])[m] == FullUrl(server, gigapans[ItemIndex(j, m, p)])
    {
      var k := ItemIndex(j, m, p);
      assert k < |urls| && RoundRobin(proxies, urls, proxies[j])[m] == urls[k];
    }
  }
}
