/**
 FilterIPs of several prefix sets at once (HeuristicMultiIPMatcher.FilterIPs and ipBucketViews of
 common/geodata/ip_matcher.go). In each family a matcher takes IPs from one of two views, by block or by address; the
 views are built apart, so an IP can be taken from one and be left in the other.
 */
module MultiIpFilter {

  import opened Buffers
  import opened IpMatcher
  import opened MultiIpMatcher
  import opened Options
  import opened Sets

  type Ip = seq<Byte>
  type Key = seq<Byte>

  // What FilterIPs returns, said of each IP by itself.

  /** The matcher looks at blocks in the family. */
  predicate Blocks(m: Matcher, four: bool) {
    if four then m.ipset.max4 <= 24 else m.ipset.max6 <= 64
  }

  /** Some of the first n matchers looks at blocks (or at addresses) in the family. */
  ghost predicate Looks(mm: seq<Matcher>, n: nat, four: bool, blocks: bool)
    requires n <= |mm|
  {
    exists j :: 0 <= j < n && Blocks(mm[j], four) == blocks
  }

  /** Some of the first n matchers that look that way matches the address. */
  ghost predicate Hits(mm: seq<Matcher>, n: nat, four: bool, blocks: bool, a: Addr)
    requires n <= |mm|
  {
    exists j :: 0 <= j < n && Blocks(mm[j], four) == blocks && MatchAddr(mm[j], a)
  }

  /** The last IP of the first n that has the address. */
  ghost function Last(ips: seq<Ip>, n: nat, a: Addr): Ip
    requires n <= |ips| && Seen(ips, n, a)
  {
    if AddrOf(ips[n - 1]) == Some(a) then ips[n - 1] else Last(ips, n - 1, a)
  }

  /** The one IP that stands for its address in the view by address. */
  ghost predicate IsLast(ips: seq<Ip>, x: Ip) {
    AddrOf(x).Some? && Seen(ips, |ips|, AddrOf(x).value) && Last(ips, |ips|, AddrOf(x).value) == x
  }

  ghost function Times(b: bool, n: nat): nat {
    if b then n else 0
  }

  /** How often the IP is among the matched ones. */
  ghost function MatchedTimes(mm: seq<Matcher>, ips: seq<Ip>, x: Ip): nat {
    match AddrOf(x)
    case None => 0
    case Some(a) =>
      Times(Hits(mm, |mm|, a.V4?, true, a), multiset(Valids(ips))[x]) +
      Times(Hits(mm, |mm|, a.V4?, false, a) && IsLast(ips, x), 1)
  }

  /** How often the IP is among the unmatched ones. */
  ghost function UnmatchedTimes(mm: seq<Matcher>, ips: seq<Ip>, x: Ip): nat {
    match AddrOf(x)
    case None => 0
    case Some(a) =>
      Times(Looks(mm, |mm|, a.V4?, true) && !Hits(mm, |mm|, a.V4?, true, a), multiset(Valids(ips))[x]) +
      Times(Looks(mm, |mm|, a.V4?, false) && !Hits(mm, |mm|, a.V4?, false, a) && IsLast(ips, x), 1)
  }

  // The two views of a family.

  ghost predicate BlockOf(b: Bucket, key: Key, four: bool) {
    && ValidAddr(b.rep) && Block(b.rep) == key && b.rep.V4? == four
    && forall y :: y in b.ips ==> KeyOf(y) == Some(key)
  }

  /** The view by block: every IP of the family in its bucket, as often as given. */
  ghost predicate ByBlock(all: map<Key, Bucket>, four: bool, ips: seq<Ip>) {
    && AllBlocks(all, four)
    && (forall x {:trigger InBuckets(all, all.Keys, x)} ::
      InBuckets(all, all.Keys, x) == Times(InFamily(x, four), multiset(Valids(ips))[x]))
  }

  /** The view by address: the last IP of every address of the family. */
  ghost predicate ByAddress(all: map<Addr, Ip>, four: bool, ips: seq<Ip>, n: nat)
    requires n <= |ips|
  {
    forall a :: (a in all <==> a.V4? == four && Seen(ips, n, a)) && (a in all ==> all[a] == Last(ips, n, a))
  }

  ghost function InAddresses(all: map<Addr, Ip>, taken: set<Addr>, x: Ip): nat {
    Times(AddrOf(x).Some? && AddrOf(x).value in all && AddrOf(x).value in taken && all[AddrOf(x).value] == x, 1)
  }

  /** What is left of a view: the entries taken are nil. */
  ghost predicate Left<K, V>(cur: map<K, Option<V>>, all: map<K, V>, taken: set<K>) {
    && cur.Keys == all.Keys && taken <= all.Keys
    && forall k :: k in all ==> cur[k] == if k in taken then None else Some(all[k])
  }

  /** The list is the IPs of these buckets. */
  ghost predicate OfBuckets(all: map<Key, Bucket>, keys: set<Key>, list: seq<Ip>) {
    forall x {:trigger InBuckets(all, keys, x)} :: multiset(list)[x] == InBuckets(all, keys, x)
  }

  lemma OneBucketMore(all: map<Key, Bucket>, keys: set<Key>, key: Key, four: bool, list: seq<Ip>)
    requires key in all && key !in keys && BlockOf(all[key], key, four) && OfBuckets(all, keys, list)
    ensures OfBuckets(all, keys + {key}, list + all[key].ips)
  {
    forall x ensures multiset(list + all[key].ips)[x] == InBuckets(all, keys + {key}, x) {
      assert multiset(list)[x] == InBuckets(all, keys, x);
      if KeyOf(x) != Some(key) { assert x !in all[key].ips; }
    }
  }

  /** The list is the IPs of these addresses. */
  ghost predicate OfAddresses(all: map<Addr, Ip>, keys: set<Addr>, list: seq<Ip>) {
    forall x {:trigger InAddresses(all, keys, x)} :: multiset(list)[x] == InAddresses(all, keys, x)
  }

  lemma OneAddressMore(all: map<Addr, Ip>, keys: set<Addr>, a: Addr, list: seq<Ip>)
    requires a in all && a !in keys && AddrOf(all[a]) == Some(a) && OfAddresses(all, keys, list)
    ensures OfAddresses(all, keys + {a}, list + [all[a]])
  {
    forall x ensures multiset(list + [all[a]])[x] == InAddresses(all, keys + {a}, x) {
      assert multiset(list)[x] == InAddresses(all, keys, x);
    }
  }

  lemma OneTaken<K, V>(cur: map<K, Option<V>>, all: map<K, V>, taken: set<K>, k: K)
    requires Left(cur, all, taken) && k in all
    ensures Left(cur[k := None], all, taken + {k})
  {
  }

  ghost predicate AllBlocks(all: map<Key, Bucket>, four: bool) {
    forall key :: key in all ==> BlockOf(all[key], key, four)
  }

  method TakeBucket(m: Matcher, key: Key, cur: map<Key, Option<Bucket>>, hits: seq<Ip>, ghost all: map<Key, Bucket>,
                    ghost taken: set<Key>, ghost new': set<Key>, ghost four: bool)
    returns (cur': map<Key, Option<Bucket>>, hits': seq<Ip>)
    requires Left(cur, all, taken + new') && AllBlocks(all, four) && OfBuckets(all, new', hits) && key in all && key !in new'
    ensures var more := if key !in taken && MatchAddr(m, all[key].rep) then new' + {key} else new';
      Left(cur', all, taken + more) && OfBuckets(all, more, hits')
  {
    cur', hits' := cur, hits;
    match cur[key]
    case None =>
    case Some(b) =>
      if MatchAddr(m, b.rep) {
        OneBucketMore(all, new', key, four, hits);
        OneTaken(cur, all, taken + new', key);
        assert taken + new' + {key} == taken + (new' + {key});
        cur', hits' := cur[key := None], hits + b.ips;
      }
  }

  /** Of the entries looked at and not taken before, exactly those that the matcher matches are new. */
  ghost predicate Fresh<K(!new)>(keys: set<K>, taken: set<K>, new': set<K>, todo: set<K>, matches: K -> bool) {
    && new' !! taken && new' !! todo && new' <= keys
    && forall k :: k in keys && k !in taken && k !in todo ==> (k in new' <==> matches(k))
  }

  ghost function Grown<K(!new)>(taken: set<K>, new': set<K>, k: K, matches: K -> bool): set<K> {
    if k !in taken && matches(k) then new' + {k} else new'
  }

  lemma FreshNext<K(!new)>(keys: set<K>, taken: set<K>, new': set<K>, todo: set<K>, k: K, matches: K -> bool)
    requires Fresh(keys, taken, new', todo, matches) && k in todo && todo <= keys
    ensures Fresh(keys, taken, Grown(taken, new', k, matches), todo - {k}, matches) && k !in new'
  {
  }

  /** The loop over the buckets for one matcher: hits are the IPs of the buckets newly taken. */
  method TakeBuckets(m: Matcher, cur: map<Key, Option<Bucket>>, ghost all: map<Key, Bucket>, ghost taken: set<Key>,
                     ghost four: bool)
    returns (cur': map<Key, Option<Bucket>>, hits: seq<Ip>, ghost new': set<Key>)
    requires Left(cur, all, taken) && AllBlocks(all, four)
    ensures Left(cur', all, taken + new') && OfBuckets(all, new', hits)
    ensures Fresh(all.Keys, taken, new', {}, key => key in all && MatchAddr(m, all[key].rep))
  {
    cur', hits, new' := cur, [], {};
    ghost var matches := key => key in all && MatchAddr(m, all[key].rep);
    var todo := cur.Keys;
    assert taken + new' == taken;
    while todo != {}
      invariant todo <= all.Keys && Left(cur', all, taken + new') && OfBuckets(all, new', hits)
      invariant Fresh(all.Keys, taken, new', todo, matches)
      decreases |todo|
    {
      var key := Pick(todo);
      FreshNext(all.Keys, taken, new', todo, key, matches);
      cur', hits := TakeBucket(m, key, cur', hits, all, taken, new', four);
      todo, new' := todo - {key}, Grown(taken, new', key, matches);
    }
  }

  ghost predicate AllAddressed(all: map<Addr, Ip>) {
    forall a :: a in all ==> AddrOf(all[a]) == Some(a)
  }

  method TakeAddress(m: Matcher, a: Addr, cur: map<Addr, Option<Ip>>, hits: seq<Ip>, ghost all: map<Addr, Ip>,
                     ghost taken: set<Addr>, ghost new': set<Addr>)
    returns (cur': map<Addr, Option<Ip>>, hits': seq<Ip>)
    requires Left(cur, all, taken + new') && AllAddressed(all) && OfAddresses(all, new', hits) && a in all && a !in new'
    ensures var more := if a !in taken && MatchAddr(m, a) then new' + {a} else new';
      Left(cur', all, taken + more) && OfAddresses(all, more, hits')
  {
    cur', hits' := cur, hits;
    match cur[a]
    case None =>
    case Some(ip) =>
      if MatchAddr(m, a) {
        OneAddressMore(all, new', a, hits);
        OneTaken(cur, all, taken + new', a);
        assert taken + new' + {a} == taken + (new' + {a});
        cur', hits' := cur[a := None], hits + [ip];
      }
  }

  /** The loop over the addresses for one matcher. */
  method TakeAddresses(m: Matcher, cur: map<Addr, Option<Ip>>, ghost all: map<Addr, Ip>, ghost taken: set<Addr>)
    returns (cur': map<Addr, Option<Ip>>, hits: seq<Ip>, ghost new': set<Addr>)
    requires Left(cur, all, taken) && AllAddressed(all)
    ensures Left(cur', all, taken + new') && OfAddresses(all, new', hits)
    ensures Fresh(all.Keys, taken, new', {}, a => MatchAddr(m, a))
  {
    cur', hits, new' := cur, [], {};
    ghost var matches := a => MatchAddr(m, a);
    var todo := cur.Keys;
    assert taken + new' == taken;
    while todo != {}
      invariant todo <= all.Keys && Left(cur', all, taken + new') && OfAddresses(all, new', hits)
      invariant Fresh(all.Keys, taken, new', todo, matches)
      decreases |todo|
    {
      var a := Pick(todo);
      FreshNext(all.Keys, taken, new', todo, a, matches);
      cur', hits := TakeAddress(m, a, cur', hits, all, taken, new');
      todo, new' := todo - {a}, Grown(taken, new', a, matches);
    }
  }

  lemma RestNext<K>(keys: set<K>, taken: set<K>, todo: set<K>, k: K)
    requires k in todo && todo <= keys
    ensures keys - taken - (todo - {k}) == if k in taken then keys - taken - todo else keys - taken - todo + {k}
    ensures k !in keys - taken - todo
  {
  }

  /** One bucket of the loop over those that are left. */
  method RestOfBucket(cur: map<Key, Option<Bucket>>, key: Key, rest: seq<Ip>, ghost all: map<Key, Bucket>, ghost taken: set<Key>,
                      ghost four: bool, ghost done: set<Key>) returns (rest': seq<Ip>)
    requires Left(cur, all, taken) && AllBlocks(all, four) && key in all && key !in done && OfBuckets(all, done, rest)
    ensures OfBuckets(all, if key in taken then done else done + {key}, rest')
  {
    rest' := rest;
    match cur[key]
    case None =>
    case Some(b) =>
      OneBucketMore(all, done, key, four, rest);
      rest' := rest + b.ips;
  }

  /** The buckets that nothing took. */
  method RestOfBuckets(cur: map<Key, Option<Bucket>>, ghost all: map<Key, Bucket>, ghost taken: set<Key>, ghost four: bool)
    returns (rest: seq<Ip>)
    requires Left(cur, all, taken) && AllBlocks(all, four)
    ensures OfBuckets(all, all.Keys - taken, rest)
  {
    rest := [];
    var todo := cur.Keys;
    assert all.Keys - taken - todo == {};
    while todo != {}
      invariant todo <= all.Keys && OfBuckets(all, all.Keys - taken - todo, rest)
      decreases |todo|
    {
      var key := Pick(todo);
      RestNext(all.Keys, taken, todo, key);
      rest := RestOfBucket(cur, key, rest, all, taken, four, all.Keys - taken - todo);
      todo := todo - {key};
    }
    assert all.Keys - taken - todo == all.Keys - taken;
  }

  /** The addresses that nothing took. */
  method RestOfAddresses(cur: map<Addr, Option<Ip>>, ghost all: map<Addr, Ip>, ghost taken: set<Addr>) returns (rest: seq<Ip>)
    requires Left(cur, all, taken) && AllAddressed(all)
    ensures OfAddresses(all, all.Keys - taken, rest)
  {
    rest := [];
    var todo := cur.Keys;
    assert all.Keys - taken - todo == {};
    while todo != {}
      invariant todo <= all.Keys && OfAddresses(all, all.Keys - taken - todo, rest)
      decreases |todo|
    {
      var a := Pick(todo);
      RestNext(all.Keys, taken, todo, a);
      rest := RestOfAddress(cur, a, rest, all, taken, all.Keys - taken - todo);
      todo := todo - {a};
    }
    assert all.Keys - taken - todo == all.Keys - taken;
  }

  /** One address of the loop over those that are left. */
  method RestOfAddress(cur: map<Addr, Option<Ip>>, a: Addr, rest: seq<Ip>, ghost all: map<Addr, Ip>, ghost taken: set<Addr>,
                       ghost done: set<Addr>) returns (rest': seq<Ip>)
    requires Left(cur, all, taken) && AllAddressed(all) && a in all && a !in done && OfAddresses(all, done, rest)
    ensures OfAddresses(all, if a in taken then done else done + {a}, rest')
  {
    rest' := rest;
    match cur[a]
    case None =>
    case Some(ip) =>
      OneAddressMore(all, done, a, rest);
      rest' := rest + [ip];
  }

  // Building the views.

  /** An IP that is invalid or of the other family changes nothing in the view by block. */
  lemma ByBlockSame(all: map<Key, Bucket>, four: bool, ips: seq<Ip>, n: nat)
    requires n < |ips| && ByBlock(all, four, ips[..n]) && !InFamily(ips[n], four)
    ensures ByBlock(all, four, ips[..n + 1])
  {
    ValidsNext(ips, n);
    forall y ensures InBuckets(all, all.Keys, y) == Times(InFamily(y, four), multiset(Valids(ips[..n + 1]))[y]) {
      assert InBuckets(all, all.Keys, y) == Times(InFamily(y, four), multiset(Valids(ips[..n]))[y]);
    }
  }

  lemma ExtendedBlocks(all: map<Key, Bucket>, four: bool, x: Ip, a: Addr)
    requires AllBlocks(all, four) && AddrOf(x) == Some(a) && a.V4? == four
    ensures KeyOf(x) == Some(Block(a)) && AllBlocks(Extended(all, Block(a), a, x), four)
  {
    KeyIsBlock(x);
  }

  lemma ByBlockNext(all: map<Key, Bucket>, four: bool, ips: seq<Ip>, n: nat, a: Addr)
    requires n < |ips| && ByBlock(all, four, ips[..n]) && AddrOf(ips[n]) == Some(a) && a.V4? == four
    ensures KeyOf(ips[n]) == Some(Block(a)) && ByBlock(Extended(all, Block(a), a, ips[n]), four, ips[..n + 1])
  {
    var x := ips[n];
    ExtendedBlocks(all, four, x, a);
    ValidsNext(ips, n);
    var more := Extended(all, Block(a), a, x);
    forall y ensures InBuckets(more, more.Keys, y) == Times(InFamily(y, four), multiset(Valids(ips[..n + 1]))[y]) {
      ExtendedCount(all, Block(a), a, x, y);
      assert InBuckets(all, all.Keys, y) == Times(InFamily(y, four), multiset(Valids(ips[..n]))[y]);
    }
  }

  lemma ByAddressNext(all: map<Addr, Ip>, four: bool, ips: seq<Ip>, n: nat)
    requires n < |ips| && ByAddress(all, four, ips, n)
    ensures match AddrOf(ips[n])
      case None => ByAddress(all, four, ips, n + 1)
      case Some(a) => ByAddress(if a.V4? == four then all[a := ips[n]] else all, four, ips, n + 1)
  {
    forall b ensures Seen(ips, n + 1, b) <==> Seen(ips, n, b) || AddrOf(ips[n]) == Some(b) {
      SeenLater(ips, n, b);
    }
  }

  lemma {:induction false} LastHasAddress(ips: seq<Ip>, n: nat, a: Addr)
    requires n <= |ips| && Seen(ips, n, a)
    ensures AddrOf(Last(ips, n, a)) == Some(a)
  {
    if AddrOf(ips[n - 1]) != Some(a) { LastHasAddress(ips, n - 1, a); }
  }

  lemma ByAddressIsAddressed(all: map<Addr, Ip>, four: bool, ips: seq<Ip>)
    requires ByAddress(all, four, ips, |ips|)
    ensures AllAddressed(all)
  {
    forall a | a in all ensures AddrOf(all[a]) == Some(a) {
      LastHasAddress(ips, |ips|, a);
    }
  }

  /** One IP of the loop of ensureForMatcher, for one family. */
  method FillOne(ips: seq<Ip>, n: nat, four: bool, blocks: bool, addresses: bool, b: map<Key, Bucket>, p: map<Addr, Ip>)
    returns (b': map<Key, Bucket>, p': map<Addr, Ip>)
    requires n < |ips| && (blocks ==> ByBlock(b, four, ips[..n])) && (addresses ==> ByAddress(p, four, ips, n))
    ensures blocks ==> ByBlock(b', four, ips[..n + 1])
    ensures addresses ==> ByAddress(p', four, ips, n + 1)
  {
    b', p' := b, p;
    if addresses { ByAddressNext(p, four, ips, n); }
    if AddrOf(ips[n]) == None || AddrOf(ips[n]).value.V4? != four {
      if blocks { ByBlockSame(b, four, ips, n); }
      return;
    }
    var a := AddrOf(ips[n]).value;
    if blocks {
      ByBlockNext(b, four, ips, n, a);
      b' := Extended(b, KeyOf(ips[n]).value, a, ips[n]);
    }
    if addresses { p' := p[a := ips[n]]; }
  }

  /** The loop of ensureForMatcher for the views that are needed. */
  method Fill(ips: seq<Ip>, heur4: bool, heur6: bool, prec4: bool, prec6: bool)
    returns (b4: map<Key, Bucket>, b6: map<Key, Bucket>, p4: map<Addr, Ip>, p6: map<Addr, Ip>)
    ensures (heur4 ==> ByBlock(b4, true, ips)) && (heur6 ==> ByBlock(b6, false, ips))
    ensures (prec4 ==> ByAddress(p4, true, ips, |ips|)) && (prec6 ==> ByAddress(p6, false, ips, |ips|))
  {
    b4, b6, p4, p6 := map[], map[], map[], map[];
    for n := 0 to |ips|
      invariant (heur4 ==> ByBlock(b4, true, ips[..n])) && (heur6 ==> ByBlock(b6, false, ips[..n]))
      invariant (prec4 ==> ByAddress(p4, true, ips, n)) && (prec6 ==> ByAddress(p6, false, ips, n))
    {
      b4, p4 := FillOne(ips, n, true, heur4, prec4, b4, p4);
      b6, p6 := FillOne(ips, n, false, heur6, prec6, b6, p6);
    }
    assert ips[..|ips|] == ips;
  }

  function Whole<K, V>(all: map<K, V>): map<K, Option<V>> {
    map k | k in all :: Some(all[k])
  }

  // One family over the matchers.

  datatype FamilyViews = FamilyViews(buckets: Option<map<Key, Option<Bucket>>>, addresses: Option<map<Addr, Option<Ip>>>)

  /** What the views of a family were when they were built, and what has been taken since. */
  datatype Origin = Origin(blocks: map<Key, Bucket>, taken: set<Key>, addrs: map<Addr, Ip>, gone: set<Addr>)

  /** Views for the first v matchers, with what the first h took away. */
  ghost predicate BlocksAt(mm: seq<Matcher>, v: nat, h: nat, four: bool, ips: seq<Ip>, f: FamilyViews, o: Origin)
    requires v <= |mm| && h <= |mm|
  {
    && (f.buckets.Some? <==> Looks(mm, v, four, true))
    && if f.buckets.None? then o.blocks == map[] && o.taken == {}
       else ByBlock(o.blocks, four, ips) && Left(f.buckets.value, o.blocks, o.taken) && BlocksTaken(mm, h, four, o)
  }

  ghost predicate BlocksTaken(mm: seq<Matcher>, h: nat, four: bool, o: Origin)
    requires h <= |mm|
  {
    forall key :: key in o.blocks ==> (key in o.taken <==> Hits(mm, h, four, true, o.blocks[key].rep))
  }

  ghost predicate AddressesAt(mm: seq<Matcher>, v: nat, h: nat, four: bool, ips: seq<Ip>, f: FamilyViews, o: Origin)
    requires v <= |mm| && h <= |mm|
  {
    && (f.addresses.Some? <==> Looks(mm, v, four, false))
    && if f.addresses.None? then o.addrs == map[] && o.gone == {}
       else ByAddress(o.addrs, four, ips, |ips|) && Left(f.addresses.value, o.addrs, o.gone) && AddressesTaken(mm, h, four, o)
  }

  ghost predicate AddressesTaken(mm: seq<Matcher>, h: nat, four: bool, o: Origin)
    requires h <= |mm|
  {
    forall a :: a in o.addrs ==> (a in o.gone <==> Hits(mm, h, four, false, a))
  }

  ghost predicate FamilyAt(mm: seq<Matcher>, v: nat, h: nat, four: bool, ips: seq<Ip>, f: FamilyViews, o: Origin)
    requires v <= |mm| && h <= |mm|
  {
    BlocksAt(mm, v, h, four, ips, f, o) && AddressesAt(mm, v, h, four, ips, f, o)
  }

  ghost function Gone(o: Origin, x: Ip): nat {
    InBuckets(o.blocks, o.taken, x) + InAddresses(o.addrs, o.gone, x)
  }

  lemma HitsNext(mm: seq<Matcher>, h: nat, four: bool, blocks: bool, a: Addr)
    requires h < |mm|
    ensures Hits(mm, h + 1, four, blocks, a) <==>
      Hits(mm, h, four, blocks, a) || (Blocks(mm[h], four) == blocks && MatchAddr(mm[h], a))
  {
  }

  lemma TakenMore(mm: seq<Matcher>, h: nat, four: bool, ips: seq<Ip>, o: Origin, new': set<Key>)
    requires h < |mm| && Blocks(mm[h], four) && BlocksTaken(mm, h, four, o) && o.taken <= o.blocks.Keys
    requires Fresh(o.blocks.Keys, o.taken, new', {}, key => key in o.blocks && MatchAddr(mm[h], o.blocks[key].rep))
    ensures BlocksTaken(mm, h + 1, four, o.(taken := o.taken + new'))
    ensures forall x {:trigger InBuckets(o.blocks, o.taken + new', x)} ::
      InBuckets(o.blocks, o.taken + new', x) == InBuckets(o.blocks, o.taken, x) + InBuckets(o.blocks, new', x)
  {
    forall key | key in o.blocks ensures key in o.taken + new' <==> Hits(mm, h + 1, four, true, o.blocks[key].rep) {
      HitsNext(mm, h, four, true, o.blocks[key].rep);
    }
  }

  lemma GoneMore(mm: seq<Matcher>, h: nat, four: bool, o: Origin, new': set<Addr>)
    requires h < |mm| && !Blocks(mm[h], four) && AddressesTaken(mm, h, four, o) && o.gone <= o.addrs.Keys
    requires Fresh(o.addrs.Keys, o.gone, new', {}, a => MatchAddr(mm[h], a))
    ensures AddressesTaken(mm, h + 1, four, o.(gone := o.gone + new'))
    ensures forall x {:trigger InAddresses(o.addrs, o.gone + new', x)} ::
      InAddresses(o.addrs, o.gone + new', x) == InAddresses(o.addrs, o.gone, x) + InAddresses(o.addrs, new', x)
  {
    forall a | a in o.addrs ensures a in o.gone + new' <==> Hits(mm, h + 1, four, false, a) {
      HitsNext(mm, h, four, false, a);
    }
  }

  /** The view that the matcher does not look at stays as it is. */
  lemma OtherStays(mm: seq<Matcher>, v: nat, h: nat, four: bool, ips: seq<Ip>, f: FamilyViews, o: Origin)
    requires v <= |mm| && h < |mm|
    ensures !Blocks(mm[h], four) && BlocksAt(mm, v, h, four, ips, f, o) ==> BlocksAt(mm, v, h + 1, four, ips, f, o)
    ensures Blocks(mm[h], four) && AddressesAt(mm, v, h, four, ips, f, o) ==> AddressesAt(mm, v, h + 1, four, ips, f, o)
  {
    forall key | key in o.blocks
      ensures !Blocks(mm[h], four) ==>
        (Hits(mm, h + 1, four, true, o.blocks[key].rep) <==> Hits(mm, h, four, true, o.blocks[key].rep))
    {
      HitsNext(mm, h, four, true, o.blocks[key].rep);
    }
    forall a | a in o.addrs
      ensures Blocks(mm[h], four) ==> (Hits(mm, h + 1, four, false, a) <==> Hits(mm, h, four, false, a))
    {
      HitsNext(mm, h, four, false, a);
    }
  }

  ghost predicate Adds(o: Origin, hits: seq<Ip>, o': Origin) {
    forall x {:trigger Gone(o', x)} :: Gone(o', x) == Gone(o, x) + multiset(hits)[x]
  }

  /** What one matcher takes in one family. */
  method TakeFamily(mm: seq<Matcher>, h: nat, four: bool, ghost ips: seq<Ip>, f: FamilyViews, ghost o: Origin)
    returns (f': FamilyViews, hits: seq<Ip>, ghost o': Origin)
    requires h < |mm| && FamilyAt(mm, h + 1, h, four, ips, f, o)
    ensures FamilyAt(mm, h + 1, h + 1, four, ips, f', o') && Adds(o, hits, o')
  {
    OtherStays(mm, h + 1, h, four, ips, f, o);
    if Blocks(mm[h], four) {
      assert Looks(mm, h + 1, four, true);
      ghost var new';
      var cur;
      cur, hits, new' := TakeBuckets(mm[h], f.buckets.value, o.blocks, o.taken, four);
      TakenMore(mm, h, four, ips, o, new');
      f', o' := f.(buckets := Some(cur)), o.(taken := o.taken + new');
      forall x ensures Gone(o', x) == Gone(o, x) + multiset(hits)[x] {
        assert multiset(hits)[x] == InBuckets(o.blocks, new', x);
      }
      OtherStays(mm, h + 1, h, four, ips, f', o');
    } else {
      assert Looks(mm, h + 1, four, false);
      ByAddressIsAddressed(o.addrs, four, ips);
      ghost var new';
      var cur;
      cur, hits, new' := TakeAddresses(mm[h], f.addresses.value, o.addrs, o.gone);
      GoneMore(mm, h, four, o, new');
      f', o' := f.(addresses := Some(cur)), o.(gone := o.gone + new');
      forall x ensures Gone(o', x) == Gone(o, x) + multiset(hits)[x] {
        assert multiset(hits)[x] == InAddresses(o.addrs, new', x);
      }
      OtherStays(mm, h + 1, h, four, ips, f', o');
    }
  }

  /** The views of a family with those that the next matcher needs and that were missing. */
  function WithViews(f: FamilyViews, heur: bool, prec: bool, b: map<Key, Bucket>, p: map<Addr, Ip>): FamilyViews {
    FamilyViews(if heur then Some(Whole(b)) else f.buckets, if prec then Some(Whole(p)) else f.addresses)
  }

  ghost function WithOrigins(o: Origin, heur: bool, prec: bool, b: map<Key, Bucket>, p: map<Addr, Ip>): Origin {
    Origin(if heur then b else o.blocks, o.taken, if prec then p else o.addrs, o.gone)
  }

  lemma LooksNext(mm: seq<Matcher>, n: nat, four: bool, blocks: bool)
    requires n < |mm|
    ensures Looks(mm, n + 1, four, blocks) <==> Looks(mm, n, four, blocks) || Blocks(mm[n], four) == blocks
  {
  }

  /** Before any matcher looks that way none has hit. */
  lemma NoHits(mm: seq<Matcher>, n: nat, four: bool, blocks: bool)
    requires n <= |mm| && !Looks(mm, n, four, blocks)
    ensures forall a :: !Hits(mm, n, four, blocks, a)
  {
  }

  lemma BlocksReady(mm: seq<Matcher>, n: nat, four: bool, ips: seq<Ip>, f: FamilyViews, o: Origin, heur: bool, prec: bool,
                    b: map<Key, Bucket>, p: map<Addr, Ip>)
    requires n < |mm| && BlocksAt(mm, n, n, four, ips, f, o)
    requires heur == (Blocks(mm[n], four) && f.buckets.None?) && (heur ==> ByBlock(b, four, ips))
    ensures BlocksAt(mm, n + 1, n, four, ips, WithViews(f, heur, prec, b, p), WithOrigins(o, heur, prec, b, p))
  {
    LooksNext(mm, n, four, true);
    if heur { NoHits(mm, n, four, true); }
  }

  lemma AddressesReady(mm: seq<Matcher>, n: nat, four: bool, ips: seq<Ip>, f: FamilyViews, o: Origin, heur: bool, prec: bool,
                       b: map<Key, Bucket>, p: map<Addr, Ip>)
    requires n < |mm| && AddressesAt(mm, n, n, four, ips, f, o)
    requires prec == (!Blocks(mm[n], four) && f.addresses.None?) && (prec ==> ByAddress(p, four, ips, |ips|))
    ensures AddressesAt(mm, n + 1, n, four, ips, WithViews(f, heur, prec, b, p), WithOrigins(o, heur, prec, b, p))
  {
    LooksNext(mm, n, four, false);
    if prec { NoHits(mm, n, four, false); }
  }

  lemma ViewsReady(mm: seq<Matcher>, n: nat, four: bool, ips: seq<Ip>, f: FamilyViews, o: Origin, heur: bool, prec: bool,
                   b: map<Key, Bucket>, p: map<Addr, Ip>)
    requires n < |mm| && FamilyAt(mm, n, n, four, ips, f, o)
    requires heur == (Blocks(mm[n], four) && f.buckets.None?) && prec == (!Blocks(mm[n], four) && f.addresses.None?)
    requires (heur ==> ByBlock(b, four, ips)) && (prec ==> ByAddress(p, four, ips, |ips|))
    ensures FamilyAt(mm, n + 1, n, four, ips, WithViews(f, heur, prec, b, p), WithOrigins(o, heur, prec, b, p))
    ensures forall x :: Gone(WithOrigins(o, heur, prec, b, p), x) == Gone(o, x)
  {
    BlocksReady(mm, n, four, ips, f, o, heur, prec, b, p);
    AddressesReady(mm, n, four, ips, f, o, heur, prec, b, p);
  }

  /** The views of one call and what has been taken from them. */
  class BucketViews {
    var four: FamilyViews
    var six: FamilyViews
    ghost var origin4: Origin
    ghost var origin6: Origin

    ghost predicate At(mm: seq<Matcher>, v: nat, h: nat, ips: seq<Ip>)
      requires v <= |mm| && h <= |mm|
      reads this
    {
      FamilyAt(mm, v, h, true, ips, four, origin4) && FamilyAt(mm, v, h, false, ips, six, origin6)
    }

    ghost function Taken(x: Ip): nat
      reads this
    {
      Gone(origin4, x) + Gone(origin6, x)
    }

    /** The list holds what has been taken. */
    ghost predicate Tallies(list: seq<Ip>)
      reads this
    {
      forall x :: Taken(x) == multiset(list)[x]
    }

    constructor (ghost mm: seq<Matcher>, ghost ips: seq<Ip>)
      ensures At(mm, 0, 0, ips) && Tallies([])
    {
      four, six := FamilyViews(None, None), FamilyViews(None, None);
      origin4, origin6 := Origin(map[], {}, map[], {}), Origin(map[], {}, map[], {});
    }

    /** ensureForMatcher. */
    method Ensure(mm: seq<Matcher>, n: nat, ips: seq<Ip>)
      requires n < |mm| && At(mm, n, n, ips)
      modifies this
      ensures At(mm, n + 1, n, ips) && forall x :: Taken(x) == old(Taken(x))
    {
      var m := mm[n];
      var heur4, prec4 := m.ipset.max4 <= 24 && four.buckets == None, m.ipset.max4 > 24 && four.addresses == None;
      var heur6, prec6 := m.ipset.max6 <= 64 && six.buckets == None, m.ipset.max6 > 64 && six.addresses == None;
      if !heur4 && !heur6 && !prec4 && !prec6 {
        ViewsReady(mm, n, true, ips, four, origin4, heur4, prec4, map[], map[]);
        ViewsReady(mm, n, false, ips, six, origin6, heur6, prec6, map[], map[]);
        return;
      }
      var b4, b6, p4, p6 := Fill(ips, heur4, heur6, prec4, prec6);
      ViewsReady(mm, n, true, ips, four, origin4, heur4, prec4, b4, p4);
      ViewsReady(mm, n, false, ips, six, origin6, heur6, prec6, b6, p6);
      four, six := WithViews(four, heur4, prec4, b4, p4), WithViews(six, heur6, prec6, b6, p6);
      origin4, origin6 := WithOrigins(origin4, heur4, prec4, b4, p4), WithOrigins(origin6, heur6, prec6, b6, p6);
    }

    /** One turn of the loop over the matchers. */
    method Take(mm: seq<Matcher>, n: nat, ips: seq<Ip>, matched: seq<Ip>) returns (matched': seq<Ip>)
      requires n < |mm| && At(mm, n, n, ips) && Tallies(matched)
      modifies this
      ensures At(mm, n + 1, n + 1, ips) && Tallies(matched')
    {
      Ensure(mm, n, ips);
      var hits4, hits6;
      four, hits4, origin4 := TakeFamily(mm, n, true, ips, four, origin4);
      six, hits6, origin6 := TakeFamily(mm, n, false, ips, six, origin6);
      matched' := matched + hits4 + hits6;
    }
  }

  // The counts.

  /** In a bucket every IP is hit exactly if its representative is. */
  lemma HitsBlock(mm: seq<Matcher>, a: Addr, rep: Addr)
    requires AllBuilt(mm) && ValidAddr(a) && ValidAddr(rep) && Block(a) == Block(rep)
    ensures a.V4? == rep.V4? && (Hits(mm, |mm|, a.V4?, true, a) <==> Hits(mm, |mm|, a.V4?, true, rep))
  {
    assert Block(a)[0] == (if a.V4? then 4 else 6) && Block(rep)[0] == (if rep.V4? then 4 else 6);
    forall j | 0 <= j < |mm| && Blocks(mm[j], a.V4?) ensures MatchAddr(mm[j], a) == MatchAddr(mm[j], rep) {
      SameBlock(mm[j], a, rep);
    }
  }

  lemma BlockCounts(mm: seq<Matcher>, four: bool, ips: seq<Ip>, f: FamilyViews, o: Origin, x: Ip)
    requires AllBuilt(mm) && BlocksAt(mm, |mm|, |mm|, four, ips, f, o)
    ensures AddrOf(x) == None || AddrOf(x).value.V4? != four ==>
      InBuckets(o.blocks, o.taken, x) == 0 && InBuckets(o.blocks, o.blocks.Keys - o.taken, x) == 0
    ensures InFamily(x, four) ==>
      var a, n := AddrOf(x).value, multiset(Valids(ips))[x];
      && InBuckets(o.blocks, o.taken, x) == Times(Hits(mm, |mm|, four, true, a), n)
      && InBuckets(o.blocks, o.blocks.Keys - o.taken, x) == Times(Looks(mm, |mm|, four, true) && !Hits(mm, |mm|, four, true, a), n)
  {
    KeyIsBlock(x);
    if f.buckets.None? {
      NoHits(mm, |mm|, four, true);
    } else {
      assert InBuckets(o.blocks, o.blocks.Keys, x) == Times(InFamily(x, four), multiset(Valids(ips))[x]);
      if InFamily(x, four) && KeyOf(x).value in o.blocks {
        HitsBlock(mm, AddrOf(x).value, o.blocks[KeyOf(x).value].rep);
      }
    }
  }

  lemma AddressCounts(mm: seq<Matcher>, four: bool, ips: seq<Ip>, f: FamilyViews, o: Origin, x: Ip)
    requires AddressesAt(mm, |mm|, |mm|, four, ips, f, o)
    ensures AddrOf(x) == None || AddrOf(x).value.V4? != four ==>
      InAddresses(o.addrs, o.gone, x) == 0 && InAddresses(o.addrs, o.addrs.Keys - o.gone, x) == 0
    ensures InFamily(x, four) ==>
      var a := AddrOf(x).value;
      && InAddresses(o.addrs, o.gone, x) == Times(Hits(mm, |mm|, four, false, a) && IsLast(ips, x), 1)
      && InAddresses(o.addrs, o.addrs.Keys - o.gone, x) ==
         Times(Looks(mm, |mm|, four, false) && !Hits(mm, |mm|, four, false, a) && IsLast(ips, x), 1)
  {
    if f.addresses.None? { NoHits(mm, |mm|, four, false); }
  }

  /** How often the IP is left in the views of a family. */
  ghost function Kept(o: Origin, x: Ip): nat {
    InBuckets(o.blocks, o.blocks.Keys - o.taken, x) + InAddresses(o.addrs, o.addrs.Keys - o.gone, x)
  }

  lemma FamilyCounts(mm: seq<Matcher>, four: bool, ips: seq<Ip>, f: FamilyViews, o: Origin, x: Ip)
    requires AllBuilt(mm) && FamilyAt(mm, |mm|, |mm|, four, ips, f, o)
    ensures AddrOf(x) == None || AddrOf(x).value.V4? != four ==> Gone(o, x) == 0 && Kept(o, x) == 0
    ensures InFamily(x, four) ==> Gone(o, x) == MatchedTimes(mm, ips, x) && Kept(o, x) == UnmatchedTimes(mm, ips, x)
  {
    BlockCounts(mm, four, ips, f, o, x);
    AddressCounts(mm, four, ips, f, o, x);
  }

  lemma Counts(mm: seq<Matcher>, ips: seq<Ip>, f: FamilyViews, o: Origin, f': FamilyViews, o': Origin, x: Ip)
    requires AllBuilt(mm) && FamilyAt(mm, |mm|, |mm|, true, ips, f, o) && FamilyAt(mm, |mm|, |mm|, false, ips, f', o')
    ensures Gone(o, x) + Gone(o', x) == MatchedTimes(mm, ips, x) && Kept(o, x) + Kept(o', x) == UnmatchedTimes(mm, ips, x)
  {
    FamilyCounts(mm, true, ips, f, o, x);
    FamilyCounts(mm, false, ips, f', o', x);
  }

  /** What is left of a family, in both views. */
  method RestOfFamily(mm: seq<Matcher>, four: bool, ghost ips: seq<Ip>, f: FamilyViews, ghost o: Origin) returns (rest: seq<Ip>)
    requires FamilyAt(mm, |mm|, |mm|, four, ips, f, o)
    ensures forall x :: multiset(rest)[x] == Kept(o, x)
  {
    var rest1, rest2: seq<Ip> := [], [];
    if f.buckets.Some? { rest1 := RestOfBuckets(f.buckets.value, o.blocks, o.taken, four); }
    if f.addresses.Some? {
      ByAddressIsAddressed(o.addrs, four, ips);
      rest2 := RestOfAddresses(f.addresses.value, o.addrs, o.gone);
    }
    rest := rest1 + rest2;
    forall x ensures multiset(rest)[x] == Kept(o, x) {
      if f.buckets.Some? { assert multiset(rest1)[x] == InBuckets(o.blocks, o.blocks.Keys - o.taken, x); }
      if f.addresses.Some? { assert multiset(rest2)[x] == InAddresses(o.addrs, o.addrs.Keys - o.gone, x); }
    }
  }

  /** The matchers take their IPs one after another. */
  method TakeAll(mm: seq<Matcher>, ips: seq<Ip>) returns (views: BucketViews, matched: seq<Ip>)
    ensures fresh(views) && views.At(mm, |mm|, |mm|, ips) && views.Tallies(matched)
  {
    views := new BucketViews(mm, ips);
    matched := [];
    for n := 0 to |mm|
      invariant fresh(views) && views.At(mm, n, n, ips) && views.Tallies(matched)
    {
      matched := views.Take(mm, n, ips, matched);
    }
  }

  /** The part of FilterIPs for two or more IPs. */
  method FilterMany(mm: seq<Matcher>, ips: seq<Ip>) returns (matched: seq<Ip>, unmatched: seq<Ip>)
    requires AllBuilt(mm)
    ensures forall x :: multiset(matched)[x] == MatchedTimes(mm, ips, x)
    ensures forall x :: multiset(unmatched)[x] == UnmatchedTimes(mm, ips, x)
  {
    var views;
    views, matched := TakeAll(mm, ips);
    var rest4 := RestOfFamily(mm, true, ips, views.four, views.origin4);
    var rest6 := RestOfFamily(mm, false, ips, views.six, views.origin6);
    unmatched := rest4 + rest6;
    forall x ensures multiset(matched)[x] == MatchedTimes(mm, ips, x) && multiset(unmatched)[x] == UnmatchedTimes(mm, ips, x) {
      assert views.Taken(x) == multiset(matched)[x];
      Counts(mm, ips, views.four, views.origin4, views.six, views.origin6, x);
    }
  }

  /** The part of FilterIPs for one IP. */
  method FilterSingle(mm: seq<Matcher>, ips: seq<Ip>) returns (matched: seq<Ip>, unmatched: seq<Ip>)
    requires |ips| == 1
    ensures multiset(matched) + multiset(unmatched) == multiset(Valids(ips))
    ensures forall x :: x in Valids(ips) ==> (x in matched <==> MatchOne(mm, x))
  {
    ValidsNext(ips, 0);
    assert ips[..1] == ips && ips == [ips[0]];
    if AddrOf(ips[0]) == None { return [], []; }
    var a := AddrOf(ips[0]).value;
    for j := 0 to |mm|
      invariant forall k :: 0 <= k < j ==> !MatchAddr(mm[k], a)
    {
      if MatchAddr(mm[j], a) { return ips, []; }
    }
    return [], ips;
  }

  // How many are matched.

  /** The IP at i is the last one that has its address. */
  ghost predicate LastAt(ips: seq<Ip>, i: nat)
    requires i < |ips|
  {
    forall j :: i < j < |ips| ==> AddrOf(ips[j]) != AddrOf(ips[i])
  }

  /** The IP at i as often as it is taken: once for its block and, if it is the last one, once for its address. */
  ghost function Turns(mm: seq<Matcher>, ips: seq<Ip>, i: nat): seq<Ip>
    requires i < |ips|
  {
    match AddrOf(ips[i])
    case None => []
    case Some(a) =>
      (if Hits(mm, |mm|, a.V4?, true, a) then [ips[i]] else []) +
      (if Hits(mm, |mm|, a.V4?, false, a) && LastAt(ips, i) then [ips[i]] else [])
  }

  ghost function AllTurns(mm: seq<Matcher>, ips: seq<Ip>, n: nat): seq<Ip>
    requires n <= |ips|
  {
    if n == 0 then [] else AllTurns(mm, ips, n - 1) + Turns(mm, ips, n - 1)
  }

  ghost predicate LastBefore(ips: seq<Ip>, n: nat, x: Ip)
    requires n <= |ips|
  {
    exists i :: 0 <= i < n && ips[i] == x && LastAt(ips, i)
  }

  lemma LastBeforeNext(ips: seq<Ip>, n: nat, x: Ip)
    requires n < |ips|
    ensures LastBefore(ips, n + 1, x) <==> LastBefore(ips, n, x) || (ips[n] == x && LastAt(ips, n))
    ensures ips[n] == x ==> !LastBefore(ips, n, x)
  {
  }

  lemma {:induction false} LastIndex(ips: seq<Ip>, n: nat, a: Addr) returns (i: nat)
    requires n <= |ips| && Seen(ips, n, a)
    ensures i < n && AddrOf(ips[i]) == Some(a) && Last(ips, n, a) == ips[i]
    ensures forall j :: i < j < n ==> AddrOf(ips[j]) != Some(a)
  {
    if AddrOf(ips[n - 1]) == Some(a) { i := n - 1; } else { i := LastIndex(ips, n - 1, a); }
  }

  lemma {:induction false} BeforeIsLast(ips: seq<Ip>, n: nat, i: nat)
    requires i < n <= |ips| && AddrOf(ips[i]).Some? && LastAt(ips, i)
    ensures Last(ips, n, AddrOf(ips[i]).value) == ips[i]
  {
    if i < n - 1 {
      assert AddrOf(ips[n - 1]) != AddrOf(ips[i]);
      BeforeIsLast(ips, n - 1, i);
    }
  }

  lemma LastTwice(ips: seq<Ip>, x: Ip)
    requires AddrOf(x).Some?
    ensures IsLast(ips, x) <==> LastBefore(ips, |ips|, x)
  {
    if IsLast(ips, x) {
      var i := LastIndex(ips, |ips|, AddrOf(x).value);
      assert LastAt(ips, i);
    }
    if i :| 0 <= i < |ips| && ips[i] == x && LastAt(ips, i) { BeforeIsLast(ips, |ips|, i); }
  }

  lemma NoTurn(mm: seq<Matcher>, ips: seq<Ip>, i: nat, x: Ip)
    requires i < |ips| && (ips[i] != x || AddrOf(x) == None)
    ensures x !in Turns(mm, ips, i)
  {
  }

  lemma TurnsTimes(mm: seq<Matcher>, ips: seq<Ip>, i: nat, x: Ip)
    requires i < |ips| && AddrOf(x).Some?
    ensures var a := AddrOf(x).value;
      multiset(Turns(mm, ips, i))[x] == Times(ips[i] == x && Hits(mm, |mm|, a.V4?, true, a), 1) +
        Times(ips[i] == x && LastAt(ips, i) && Hits(mm, |mm|, a.V4?, false, a), 1)
  {
    if ips[i] != x { NoTurn(mm, ips, i, x); }
  }

  /** How often the IP is among the valid ones of the first n. */
  ghost function Given(ips: seq<Ip>, n: nat, x: Ip): nat
    requires n <= |ips|
  {
    multiset(Valids(ips[..n]))[x]
  }

  lemma GivenNext(ips: seq<Ip>, n: nat, x: Ip)
    requires n < |ips| && AddrOf(x).Some?
    ensures Given(ips, n + 1, x) == Given(ips, n, x) + Times(ips[n] == x, 1)
  {
    ValidsNext(ips, n);
  }

  lemma {:induction false} AllTurnsTimes(mm: seq<Matcher>, ips: seq<Ip>, n: nat, x: Ip)
    requires n <= |ips| && AddrOf(x).Some?
    ensures var a := AddrOf(x).value;
      multiset(AllTurns(mm, ips, n))[x] == Times(Hits(mm, |mm|, a.V4?, true, a), Given(ips, n, x)) +
        Times(Hits(mm, |mm|, a.V4?, false, a) && LastBefore(ips, n, x), 1)
  {
    if n > 0 {
      AllTurnsTimes(mm, ips, n - 1, x);
      GivenNext(ips, n - 1, x);
      LastBeforeNext(ips, n - 1, x);
      TurnsTimes(mm, ips, n - 1, x);
    }
  }

  lemma {:induction false} NeverTurns(mm: seq<Matcher>, ips: seq<Ip>, n: nat, x: Ip)
    requires n <= |ips| && forall i :: 0 <= i < n ==> x !in Turns(mm, ips, i)
    ensures x !in AllTurns(mm, ips, n)
  {
    if n > 0 { NeverTurns(mm, ips, n - 1, x); }
  }

  /** One IP is taken from both views. */
  ghost predicate Twice(mm: seq<Matcher>, a: Addr) {
    Hits(mm, |mm|, a.V4?, true, a) && Hits(mm, |mm|, a.V4?, false, a)
  }

  ghost predicate TwiceAt(mm: seq<Matcher>, ips: seq<Ip>, i: nat)
    requires i < |ips|
  {
    AddrOf(ips[i]).Some? && Twice(mm, AddrOf(ips[i]).value)
  }

  lemma OneTurn(mm: seq<Matcher>, ips: seq<Ip>, i: nat)
    requires i < |ips| && !TwiceAt(mm, ips, i)
    ensures |Turns(mm, ips, i)| <= 1
  {
  }

  lemma {:induction false} FewTurns(mm: seq<Matcher>, ips: seq<Ip>, n: nat)
    requires n <= |ips| && forall i :: 0 <= i < n ==> !TwiceAt(mm, ips, i)
    ensures |AllTurns(mm, ips, n)| <= n
  {
    if n > 0 {
      FewTurns(mm, ips, n - 1);
      OneTurn(mm, ips, n - 1);
    }
  }

  lemma MatchedSize(mm: seq<Matcher>, ips: seq<Ip>, matched: seq<Ip>)
    requires forall x :: multiset(matched)[x] == MatchedTimes(mm, ips, x)
    ensures |matched| == |AllTurns(mm, ips, |ips|)|
  {
    var all := AllTurns(mm, ips, |ips|);
    assert ips[..|ips|] == ips;
    forall x ensures multiset(matched)[x] == multiset(all)[x] {
      if AddrOf(x).Some? {
        AllTurnsTimes(mm, ips, |ips|, x);
        LastTwice(ips, x);
      } else {
        forall i | 0 <= i < |ips| ensures x !in Turns(mm, ips, i) { NoTurn(mm, ips, i, x); }
        NeverTurns(mm, ips, |ips|, x);
      }
    }
    assert multiset(matched) == multiset(all);
    assert |multiset(matched)| == |multiset(all)|;
  }

  datatype Parts = Parts(matched: seq<Ip>, unmatched: seq<Ip>)

  /**
   FilterIPs: how often every IP is matched and unmatched. The capacity of the second list is the number of IPs less the
   matched ones; there is no result exactly if that is negative.
   */
  method FilterIPs(mm: seq<Matcher>, ips: seq<Ip>) returns (r: Option<Parts>)
    requires AllBuilt(mm)
    ensures r == None <==> |ips| >= 2 && |AllTurns(mm, ips, |ips|)| > |ips|
    ensures r.Some? && |ips| >= 2 ==> forall x :: multiset(r.value.matched)[x] == MatchedTimes(mm, ips, x)
    ensures r.Some? && |ips| >= 2 ==> forall x :: multiset(r.value.unmatched)[x] == UnmatchedTimes(mm, ips, x)
    ensures |ips| < 2 ==> multiset(r.value.matched) + multiset(r.value.unmatched) == multiset(Valids(ips))
    ensures |ips| < 2 ==> forall x :: x in Valids(ips) ==> (x in r.value.matched <==> MatchOne(mm, x))
  {
    if |ips| == 0 { return Some(Parts([], [])); }
    var matched, unmatched;
    if |ips| == 1 {
      matched, unmatched := FilterSingle(mm, ips);
      return Some(Parts(matched, unmatched));
    }
    matched, unmatched := FilterMany(mm, ips);
    MatchedSize(mm, ips, matched);
    return if |matched| > |ips| then None else Some(Parts(matched, unmatched));
  }

  // What that means.

  lemma HitsAre(mm: seq<Matcher>, x: Ip)
    requires AddrOf(x).Some?
    ensures var a := AddrOf(x).value;
      MatchOne(mm, x) <==> Hits(mm, |mm|, a.V4?, true, a) || Hits(mm, |mm|, a.V4?, false, a)
  {
    var a := AddrOf(x).value;
    if j :| 0 <= j < |mm| && Match(mm[j], x) { assert Hits(mm, |mm|, a.V4?, Blocks(mm[j], a.V4?), a); }
    if j :| 0 <= j < |mm| && MatchAddr(mm[j], a) { assert Match(mm[j], x); }
  }

  /** If every matcher looks at the blocks of the family, the IPs are parted by the union, each as often as it was given. */
  lemma PartedByBlock(mm: seq<Matcher>, ips: seq<Ip>, x: Ip)
    requires AddrOf(x).Some? && mm != [] && forall m :: m in mm ==> Blocks(m, AddrOf(x).value.V4?)
    ensures MatchedTimes(mm, ips, x) == Times(MatchOne(mm, x), multiset(Valids(ips))[x])
    ensures UnmatchedTimes(mm, ips, x) == Times(!MatchOne(mm, x), multiset(Valids(ips))[x])
  {
    HitsAre(mm, x);
    assert Blocks(mm[0], AddrOf(x).value.V4?);
  }

  /** If none does, they are parted by the union, the last of every address once. */
  lemma PartedByAddress(mm: seq<Matcher>, ips: seq<Ip>, x: Ip)
    requires AddrOf(x).Some? && mm != [] && forall m :: m in mm ==> !Blocks(m, AddrOf(x).value.V4?)
    ensures MatchedTimes(mm, ips, x) == Times(MatchOne(mm, x) && IsLast(ips, x), 1)
    ensures UnmatchedTimes(mm, ips, x) == Times(!MatchOne(mm, x) && IsLast(ips, x), 1)
  {
    HitsAre(mm, x);
    assert !Blocks(mm[0], AddrOf(x).value.V4?);
  }

  /** The matchers look at the family in both ways. */
  ghost predicate Mixed(mm: seq<Matcher>, four: bool) {
    Looks(mm, |mm|, four, true) && Looks(mm, |mm|, four, false)
  }

  lemma {:induction false} ValidIn(ips: seq<Ip>, n: nat, x: Ip)
    requires n <= |ips| && AddrOf(x).Some?
    ensures x in ips[..n] <==> x in Valids(ips[..n])
  {
    if n > 0 {
      ValidIn(ips, n - 1, x);
      ValidsNext(ips, n - 1);
      assert ips[..n] == ips[..n - 1] + [ips[n - 1]];
    }
  }

  /** Exactly which IPs are on both sides. */
  lemma OnBothSides(mm: seq<Matcher>, ips: seq<Ip>, x: Ip)
    requires AddrOf(x).Some?
    ensures var a := AddrOf(x).value;
      MatchedTimes(mm, ips, x) > 0 && UnmatchedTimes(mm, ips, x) > 0 <==>
        IsLast(ips, x) && Mixed(mm, a.V4?) && Hits(mm, |mm|, a.V4?, true, a) != Hits(mm, |mm|, a.V4?, false, a)
  {
    ValidIn(ips, |ips|, x);
    assert ips[..|ips|] == ips;
    if IsLast(ips, x) { LastTwice(ips, x); }
  }

  /** Exactly which IPs are on neither side. */
  lemma OnNeitherSide(mm: seq<Matcher>, ips: seq<Ip>, x: Ip)
    requires AddrOf(x).Some? && x in ips
    ensures MatchedTimes(mm, ips, x) == 0 && UnmatchedTimes(mm, ips, x) == 0 <==>
      !Looks(mm, |mm|, AddrOf(x).value.V4?, true) && (mm == [] || !IsLast(ips, x))
  {
    ValidIn(ips, |ips|, x);
    assert ips[..|ips|] == ips;
    var four := AddrOf(x).value.V4?;
    if !Looks(mm, |mm|, four, true) {
      NoHits(mm, |mm|, four, true);
      if mm != [] { assert Blocks(mm[0], four) == false; }
    }
  }

  /** Without mixed families there is a result. */
  lemma UnmixedSucceeds(mm: seq<Matcher>, ips: seq<Ip>)
    requires !Mixed(mm, true) && !Mixed(mm, false)
    ensures |AllTurns(mm, ips, |ips|)| <= |ips|
  {
    forall i | 0 <= i < |ips| ensures !TwiceAt(mm, ips, i) {
      if AddrOf(ips[i]).Some? {
        var four := AddrOf(ips[i]).value.V4?;
        if Looks(mm, |mm|, four, true) { NoHits(mm, |mm|, four, false); } else { NoHits(mm, |mm|, four, true); }
      }
    }
    FewTurns(mm, ips, |ips|);
  }

  lemma TwiceTurn(mm: seq<Matcher>, ips: seq<Ip>, i: nat)
    requires i < |ips| && AddrOf(ips[i]).Some? && Twice(mm, AddrOf(ips[i]).value)
    ensures |Turns(mm, ips, i)| == if LastAt(ips, i) then 2 else 1
  {
  }

  /** If every IP is taken from both views there is no result. */
  lemma {:induction false} TwiceTurns(mm: seq<Matcher>, ips: seq<Ip>, n: nat)
    requires n <= |ips| && forall i :: 0 <= i < |ips| ==> TwiceAt(mm, ips, i)
    ensures |AllTurns(mm, ips, n)| >= n && (n == |ips| > 0 ==> |AllTurns(mm, ips, n)| > n)
  {
    if n > 0 {
      TwiceTurns(mm, ips, n - 1);
      assert TwiceAt(mm, ips, n - 1);
      TwiceTurn(mm, ips, n - 1);
    }
  }

  /** A matcher without the family still asks for its addresses: whatever another one matches by block is on both sides. */
  lemma OtherFamilyIsBothSides(m: Matcher, other: Matcher, ips: seq<Ip>, x: Ip)
    requires Built(m.ipset) && Built(other.ipset)
    requires m.ipset.max4 <= 24 && other.ipset.ipv4 == []
    requires AddrOf(x).Some? && AddrOf(x).value.V4? && MatchAddr(m, AddrOf(x).value) && IsLast(ips, x)
    ensures MatchedTimes([m, other], ips, x) > 0 && UnmatchedTimes([m, other], ips, x) > 0
  {
    var mm, a := [m, other], AddrOf(x).value;
    assert Blocks(mm[0], true) && !Blocks(mm[1], true);
    assert Hits(mm, 2, true, true, a) && !Hits(mm, 2, true, false, a);
    OnBothSides(mm, ips, x);
  }

  /** The first of two IPs of 1.2.3.0/24, filtered by that prefix and by an IPv6 one. */
  lemma BothSidesExample()
    ensures var x: Ip, y: Ip := [1, 2, 3, 4], [1, 2, 3, 5];
      var m := Matcher(IpSet([Prefix([1, 2, 3, 0], 24)], [], 24, NONE), false);
      var other := Matcher(IpSet([], [Prefix(seq(16, _ => 0), 64)], NONE, 64), false);
      && AllBuilt([m, other])
      && MatchedTimes([m, other], [x, y], x) > 0 && UnmatchedTimes([m, other], [x, y], x) > 0
  {
    var x: Ip, y: Ip, z: Ip := [1, 2, 3, 4], [1, 2, 3, 5], [1, 2, 3, 0];
    var p := Prefix(z, 24);
    var m := Matcher(IpSet([p], [], 24, NONE), false);
    var other := Matcher(IpSet([], [Prefix(seq(16, _ => 0), 64)], NONE, 64), false);
    assert m.ipset.ipv4[0].bits == 24 && other.ipset.ipv6[0].bits == 64;
    assert Built(m.ipset) && Built(other.ipset);
    CoversBlock(p, z, x, 3);
    assert Covers(m.ipset.ipv4[0], x);
    assert AddrOf(x) == Some(V4(x)) && AddrOf(y) == Some(V4(y));
    assert [x, y][0] == x && Last([x, y], 2, V4(x)) == Last([x, y], 1, V4(x)) == x;
    OtherFamilyIsBothSides(m, other, [x, y], x);
  }

  /** 1.2.3.4 and 1.2.3.5, filtered by 1.2.3.0/24 and by the two addresses themselves: there is no result. */
  lemma NoResultExample()
    ensures var x: Ip, y: Ip := [1, 2, 3, 4], [1, 2, 3, 5];
      var m := Matcher(IpSet([Prefix([1, 2, 3, 0], 24)], [], 24, NONE), false);
      var other := Matcher(IpSet([Prefix(x, 32), Prefix(y, 32)], [], 32, NONE), false);
      AllBuilt([m, other]) && |AllTurns([m, other], [x, y], 2)| > 2
  {
    var x: Ip, y: Ip, z: Ip := [1, 2, 3, 4], [1, 2, 3, 5], [1, 2, 3, 0];
    var m := Matcher(IpSet([Prefix(z, 24)], [], 24, NONE), false);
    var other := Matcher(IpSet([Prefix(x, 32), Prefix(y, 32)], [], 32, NONE), false);
    assert m.ipset.ipv4[0].bits == 24 && other.ipset.ipv4[0].bits == 32;
    assert Built(m.ipset) && Built(other.ipset);
    TakenTwice(m, other, z, x, 0);
    TakenTwice(m, other, z, y, 1);
    var ips := [x, y];
    assert ips[0] == x && ips[1] == y;
    TwiceTurns([m, other], ips, 2);
  }

  lemma TakenTwice(m: Matcher, other: Matcher, z: Ip, x: Ip, i: nat)
    requires |z| == |x| == 4 && z[..3] == x[..3] && !m.reverse && !other.reverse
    requires m.ipset.ipv4 == [Prefix(z, 24)] && m.ipset.max4 == 24
    requires i < |other.ipset.ipv4| && other.ipset.ipv4[i] == Prefix(x, 32) && other.ipset.max4 == 32
    ensures AddrOf(x) == Some(V4(x)) && Twice([m, other], V4(x))
  {
    CoversBlock(Prefix(z, 24), z, x, 3);
    assert Covers(m.ipset.ipv4[0], x) && Covers(other.ipset.ipv4[i], x);
    var mm := [m, other];
    assert Blocks(mm[0], true) && MatchAddr(mm[0], V4(x)) && !Blocks(mm[1], true) && MatchAddr(mm[1], V4(x));
  }

  /** An IPv4 address in its 16-byte form and then in its 4-byte form, filtered by two sets of addresses. */
  lemma NeitherSideExample()
    ensures var y: Ip := [1, 2, 3, 4];
      var x: Ip := [0, 0, 0, 0, 0, 0, 0, 0, 0, 0, 255, 255, 1, 2, 3, 4];
      var m := Matcher(IpSet([Prefix(y, 32)], [], 32, NONE), false);
      var other := Matcher(IpSet([Prefix([1, 2, 3, 5], 32)], [], 32, NONE), false);
      && AllBuilt([m, other])
      && MatchedTimes([m, other], [x, y], x) == 0 && UnmatchedTimes([m, other], [x, y], x) == 0
  {
    var y: Ip := [1, 2, 3, 4];
    var x: Ip := [0, 0, 0, 0, 0, 0, 0, 0, 0, 0, 255, 255, 1, 2, 3, 4];
    var m := Matcher(IpSet([Prefix(y, 32)], [], 32, NONE), false);
    var other := Matcher(IpSet([Prefix([1, 2, 3, 5], 32)], [], 32, NONE), false);
    assert m.ipset.ipv4[0].bits == 32 && other.ipset.ipv4[0].bits == 32;
    assert Built(m.ipset) && Built(other.ipset);
    assert x[12..] == y;
    assert AddrOf(x) == Some(V4(y)) && AddrOf(y) == Some(V4(y));
    var mm, ips := [m, other], [x, y];
    assert !Looks(mm, 2, true, true);
    assert ips[1] == y && Last(ips, 2, V4(y)) == y;
    OnNeitherSide(mm, ips, x);
  }
}
