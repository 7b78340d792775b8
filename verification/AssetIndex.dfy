/** app/assets/index.py: address resolution against declared hosts and subnets. */
module AssetIndexes {
  import opened Prelude
  import opened Sorting

  datatype Version = V4 | V6

  function Width(v: Version): nat { if v == V4 then 32 else 128 }

  function Pow2(n: nat): (p: nat)
    ensures p > 0
  {
    if n == 0 then 1 else 2 * Pow2(n - 1)
  }

  datatype Address = Address(version: Version, value: nat)

  /** A parsed network; `first` is its network address. */
  datatype Network = Network(version: Version, prefixLen: nat, first: nat)

  /** `addr in net` guarded by the version test: masking the address gives the network address. */
  predicate Contains(n: Network, a: Address) {
    && a.version == n.version && n.prefixLen <= Width(n.version)
    && a.value - a.value % Pow2(Width(n.version) - n.prefixLen) == n.first
  }

  /** Equal prefix length and a common address leave no choice of network. */
  lemma SameLengthSameNetwork(n: Network, m: Network, a: Address)
    requires Contains(n, a) && Contains(m, a) && n.prefixLen == m.prefixLen
    ensures n == m
  {}

  lemma Pow2Splits(a: nat, b: nat)
    ensures Pow2(a + b) == Pow2(a) * Pow2(b)
  {
    if a > 0 {
      Pow2Splits(a - 1, b);
      calc {
        Pow2(a + b);
        2 * Pow2(a - 1 + b);
        2 * (Pow2(a - 1) * Pow2(b));
        (2 * Pow2(a - 1)) * Pow2(b);
      }
    }
  }

  lemma MulAtLeast(k: int, m: nat)
    requires k >= 1
    ensures k * m >= m
  {
    assert k * m == m + (k - 1) * m;
  }

  lemma ModUnique(x: nat, m: nat, d: nat, r: nat)
    requires m > 0 && x == d * m + r && r < m
    ensures x % m == r
  {
    var e, t := x / m, x % m;
    assert x == e * m + t;
    assert (d - e) * m == d * m - e * m == t - r;
    assert (e - d) * m == e * m - d * m == r - t;
    if d > e {
      MulAtLeast(d - e, m);
    } else if d < e {
      MulAtLeast(e - d, m);
    }
  }

  /** Clearing low bits gives the multiple below. */
  lemma MaskIs(x: nat, m: nat, d: nat)
    requires m > 0 && d * m <= x < d * m + m
    ensures x - x % m == d * m
  {
    ModUnique(x, m, d, x - d * m);
  }

  lemma MulOrder(a: nat, k: nat, p: nat)
    requires p > 0 && a * p < k * p + p
    ensures a * p <= k * p
  {
    assert (a - k) * p == a * p - k * p;
    if a > k { MulAtLeast(a - k, p); }
  }

  lemma Multiples(d: nat, p: nat, q: nat)
    ensures d * (p * q) == (d * q) * p
  {}

  lemma Below(x: nat, m: nat)
    requires m > 0
    ensures (x / m) * m <= x < (x / m) * m + m
  {}

  /** Clearing low bits and then more of them is clearing the larger number at once. */
  lemma MaskTwice(x: nat, p: nat, q: nat)
    requires p > 0 && q > 0 && p * q > 0
    ensures (x - x % p) - (x - x % p) % (p * q) == x - x % (p * q)
  {
    var m := p * q;
    var d, k := x / m, x / p;
    Below(x, m);
    Below(x, p);
    Multiples(d, p, q);
    MulOrder(d * q, k, p);
    MaskIs(x, p, k);
    MaskIs(x, m, d);
    MaskIs(k * p, m, d);
  }

  /** Networks that share an address are nested: the longer prefix is the smaller network. */
  lemma LongerIsInside(n: Network, m: Network, a: Address, b: Address)
    requires Contains(n, a) && Contains(m, a) && n.prefixLen >= m.prefixLen
    requires Contains(n, b)
    ensures Contains(m, b)
  {
    var h, k := Width(n.version) - n.prefixLen, n.prefixLen - m.prefixLen;
    Pow2Splits(h, k);
    assert Width(m.version) - m.prefixLen == h + k;
    MaskTwice(a.value, Pow2(h), Pow2(k));
    MaskTwice(b.value, Pow2(h), Pow2(k));
  }

  // ------------------------------------------------------- what resolution means

  /** A declared subnet and the asset that owns it. */
  datatype Subnet = Subnet(net: Network, owner: string)

  datatype Asset = Asset(id: string, enabled: bool)

  datatype Identity = Identity(id: string, enabled: bool)

  /** One entry of the alias dictionary. */
  datatype Alias = Alias(kind: string, value: string, owner: string)

  /** The longest declared network around `a`; the first declared one if a network is declared twice. */
  function Longest(declared: seq<Subnet>, a: Address): Option<Subnet> {
    if declared == [] then None
    else
      var rest := Longest(declared[1..], a);
      var s := declared[0];
      if Contains(s.net, a) && (rest.None? || s.net.prefixLen >= rest.value.net.prefixLen) then Some(s) else rest
  }

  /** `Longest` finds a containing network exactly when there is one, and none is longer. */
  lemma {:induction false} LongestIsLongest(declared: seq<Subnet>, a: Address)
    ensures Longest(declared, a).None? <==> forall s :: s in declared ==> !Contains(s.net, a)
    ensures Longest(declared, a).Some? ==>
              var best := Longest(declared, a).value;
              && best in declared && Contains(best.net, a)
              && forall s :: s in declared && Contains(s.net, a) ==> s.net.prefixLen <= best.net.prefixLen
  {
    if declared != [] {
      LongestIsLongest(declared[1..], a);
      assert declared == [declared[0]] + declared[1..];
    }
  }

  /** With every network declared once, the answer names its one owner. */
  lemma LongestOwner(declared: seq<Subnet>, a: Address, s: Subnet)
    requires s in declared && Contains(s.net, a)
    requires forall t :: t in declared && Contains(t.net, a) ==> t.net.prefixLen <= s.net.prefixLen
    requires forall t, u :: t in declared && u in declared && t.net == u.net ==> t.owner == u.owner
    ensures Longest(declared, a) == Some(s)
  {
    LongestIsLongest(declared, a);
    var best := Longest(declared, a).value;
    SameLengthSameNetwork(s.net, best.net, a);
  }

  // ------------------------------------------------------- most specific first

  predicate SubnetLe(text: Network -> string, s: Subnet, t: Subnet) {
    s.net.prefixLen > t.net.prefixLen
    || (s.net.prefixLen == t.net.prefixLen && TextLe(text(s.net), text(t.net)))
  }

  lemma SubnetLePreorder(text: Network -> string)
    ensures TotalPreorder((s, t) => SubnetLe(text, s, t))
  {
    TextLePreorder();
  }

  /** The scan over the sorted subnets: the first that contains the address. */
  function FirstHit(cidrs: seq<Subnet>, a: Address): Option<Subnet> {
    if cidrs == [] then None
    else if Contains(cidrs[0].net, a) then Some(cidrs[0])
    else FirstHit(cidrs[1..], a)
  }

  lemma {:induction false} FirstHitFacts(cidrs: seq<Subnet>, a: Address)
    ensures FirstHit(cidrs, a).None? ==> forall s :: s in cidrs ==> !Contains(s.net, a)
    ensures FirstHit(cidrs, a).Some? ==>
              exists i :: 0 <= i < |cidrs| && cidrs[i] == FirstHit(cidrs, a).value && Contains(cidrs[i].net, a)
                       && forall j :: 0 <= j < i ==> !Contains(cidrs[j].net, a)
  {
    if cidrs != [] && !Contains(cidrs[0].net, a) {
      FirstHitFacts(cidrs[1..], a);
      assert cidrs == [cidrs[0]] + cidrs[1..];
      if FirstHit(cidrs[1..], a).Some? {
        var i :| 0 <= i < |cidrs[1..]| && cidrs[1..][i] == FirstHit(cidrs[1..], a).value
                   && Contains(cidrs[1..][i].net, a)
              && forall j :: 0 <= j < i ==> !Contains(cidrs[1..][j].net, a);
        forall j | 0 <= j < i + 1 ensures !Contains(cidrs[j].net, a) {
          if j > 0 { assert cidrs[1..][j - 1] == cidrs[j]; }
        }
        assert cidrs[i + 1] == cidrs[1..][i];
      }
    }
  }

  /** The first hit is the first entry of its own network. */
  lemma {:induction false} FirstHitOfNetwork(cidrs: seq<Subnet>, a: Address, n: Network)
    requires Contains(n, a)
    requires FirstHit(cidrs, a).Some? && FirstHit(cidrs, a).value.net == n
    ensures var same := Filter((s: Subnet) => s.net == n, cidrs);
            same != [] && same[0] == FirstHit(cidrs, a).value
  {
    if !Contains(cidrs[0].net, a) { FirstHitOfNetwork(cidrs[1..], a, n); }
  }

  lemma {:induction false} LongestOfNetwork(declared: seq<Subnet>, a: Address, n: Network)
    requires Longest(declared, a).Some? && Longest(declared, a).value.net == n
    ensures var same := Filter((s: Subnet) => s.net == n, declared);
            same != [] && same[0] == Longest(declared, a).value
  {
    LongestIsLongest(declared, a);
    var s, rest := declared[0], Longest(declared[1..], a);
    assert declared == [s] + declared[1..];
    if Contains(s.net, a) && (rest.None? || s.net.prefixLen >= rest.value.net.prefixLen) {
    } else {
      LongestOfNetwork(declared[1..], a, n);
      assert s.net != n;
    }
  }

  /** In a list sorted most specific first nothing containing the address is longer than the first hit. */
  lemma FirstHitLeads(text: Network -> string, cidrs: seq<Subnet>, best: Subnet, a: Address)
    requires Sorted((s, t) => SubnetLe(text, s, t), cidrs)
    requires best in cidrs && Contains(best.net, a)
    ensures FirstHit(cidrs, a).Some? && FirstHit(cidrs, a).value.net.prefixLen >= best.net.prefixLen
  {
    FirstHitFacts(cidrs, a);
    var i :| 0 <= i < |cidrs| && cidrs[i] == FirstHit(cidrs, a).value && Contains(cidrs[i].net, a)
          && forall j :: 0 <= j < i ==> !Contains(cidrs[j].net, a);
    var k :| 0 <= k < |cidrs| && cidrs[k] == best;
    assert i <= k;
  }

  /** The first hit of the sorted list is of the same network as the longest match. */
  lemma FirstHitIsOfLongest(text: Network -> string, declared: seq<Subnet>, cidrs: seq<Subnet>, a: Address)
    requires Sorted((s, t) => SubnetLe(text, s, t), cidrs)
    requires forall s :: s in cidrs <==> s in declared
    ensures FirstHit(cidrs, a).Some? <==> Longest(declared, a).Some?
    ensures FirstHit(cidrs, a).Some? ==> FirstHit(cidrs, a).value.net == Longest(declared, a).value.net
  {
    FirstHitFacts(cidrs, a);
    LongestIsLongest(declared, a);
    if Longest(declared, a).Some? {
      var best := Longest(declared, a).value;
      FirstHitLeads(text, cidrs, best, a);
      SameLengthSameNetwork(FirstHit(cidrs, a).value.net, best.net, a);
    }
  }

  /** Scanning most specific first is longest-prefix match. */
  lemma SortedScanIsLongest(text: Network -> string, declared: seq<Subnet>, a: Address)
    ensures FirstHit(SortBy((s, t) => SubnetLe(text, s, t), declared), a) == Longest(declared, a)
  {
    var le := (s, t) => SubnetLe(text, s, t);
    var cidrs := SortBy(le, declared);
    SubnetLePreorder(text);
    SortByCorrect(le, declared);
    forall s ensures s in cidrs <==> s in declared {
      assert s in cidrs <==> s in multiset(cidrs);
    }
    FirstHitIsOfLongest(text, declared, cidrs, a);
    if Longest(declared, a).Some? {
      LongestIsLongest(declared, a);
      var best := Longest(declared, a).value;
      var p := (s: Subnet) => s.net == best.net;
      forall x, y | p(x) && p(y) ensures le(x, y) { TextLeTotal(text(x.net), text(y.net)); }
      SortByStable(le, p, declared);
      FirstHitOfNetwork(cidrs, a, best.net);
      LongestOfNetwork(declared, a, best.net);
    }
  }

  /** The list runs from longer to shorter prefixes, and in text order among equals. */
  lemma SubnetsAreOrdered(text: Network -> string, declared: seq<Subnet>, i: nat, j: nat)
    requires i < j < |SortBy((s, t) => SubnetLe(text, s, t), declared)|
    ensures var cidrs := SortBy((s, t) => SubnetLe(text, s, t), declared);
            && cidrs[i].net.prefixLen >= cidrs[j].net.prefixLen
            && (cidrs[i].net.prefixLen == cidrs[j].net.prefixLen ==> TextLe(text(cidrs[i].net), text(cidrs[j].net)))
  {
    SubnetLePreorder(text);
    SortByCorrect((s, t) => SubnetLe(text, s, t), declared);
  }

  // ------------------------------------------------------- the index object

  const MEMO_MAX: nat := 8192

  function AliasMap(aliases: seq<Alias>): map<(string, string), string> {
    if aliases == [] then map[]
    else
      var a := aliases[|aliases| - 1];
      AliasMap(aliases[..|aliases| - 1])[(a.kind, a.value) := a.owner]
  }

  /** Aliases of enabled assets only, in dictionary order. */
  function Live(enabled: set<string>, aliases: seq<Alias>): seq<Alias> {
    Filter((a: Alias) => a.owner in enabled, aliases)
  }

  function SubnetOf(parseNet: string -> Option<Network>, a: Alias): seq<Subnet> {
    if a.kind == "cidr" && parseNet(a.value).Some? then [Subnet(parseNet(a.value).value, a.owner)] else []
  }

  /** The subnets the live aliases declare, in dictionary order; unreadable ones are skipped. */
  function Declared(parseNet: string -> Option<Network>, aliases: seq<Alias>): seq<Subnet> {
    if aliases == [] then []
    else Declared(parseNet, aliases[..|aliases| - 1]) + SubnetOf(parseNet, aliases[|aliases| - 1])
  }

  /** Exact alias first, then the longest declared network, else nothing. */
  function Resolve(
    exact: map<(string, string), string>, declared: seq<Subnet>,
    parseAddr: string -> Option<Address>, value: string): Option<string>
  {
    if ("ip", value) in exact then Some(exact[("ip", value)])
    else match parseAddr(value)
      case None => None
      case Some(a) => match Longest(declared, a)
        case None => None
        case Some(s) => Some(s.owner)
  }

  // ------------------------------------------------------- what the tables and the answer mean

  lemma FloorOf(x: nat, m: nat, first: nat)
    requires m > 0 && first % m == 0
    ensures x - x % m == first <==> first <= x < first + m
  {
    if first <= x < first + m {
      ModUnique(x, m, first / m, x - first);
    }
  }

  /** A network whose first address is aligned contains exactly the addresses of its range, of its own version. */
  lemma ContainsIsRange(n: Network, a: Address)
    requires n.prefixLen <= (if n.version.V4? then 32 else 128)
    requires n.first % Pow2((if n.version.V4? then 32 else 128) - n.prefixLen) == 0
    ensures Contains(n, a) <==>
              && a.version == n.version
              && n.first <= a.value < n.first + Pow2((if n.version.V4? then 32 else 128) - n.prefixLen)
  {
    FloorOf(a.value, Pow2(Width(n.version) - n.prefixLen), n.first);
  }

  /** An alias is in the table under its kind and value; of several the last decides. */
  lemma {:induction false} AliasMapMeans(aliases: seq<Alias>, k: (string, string))
    ensures k in AliasMap(aliases) <==> exists a :: a in aliases && (a.kind, a.value) == k
    ensures k in AliasMap(aliases) ==>
              exists i :: 0 <= i < |aliases| && (aliases[i].kind, aliases[i].value) == k
                && AliasMap(aliases)[k] == aliases[i].owner
                && forall j :: i < j < |aliases| ==> (aliases[j].kind, aliases[j].value) != k
  {
    if aliases != [] {
      var front, last := aliases[..|aliases| - 1], aliases[|aliases| - 1];
      assert aliases == front + [last];
      AliasMapMeans(front, k);
      if (last.kind, last.value) != k && k in AliasMap(front) {
        var i :| 0 <= i < |front| && (front[i].kind, front[i].value) == k && AliasMap(front)[k] == front[i].owner
                 && forall j :: i < j < |front| ==> (front[j].kind, front[j].value) != k;
        assert aliases[i] == front[i];
        assert forall j :: i < j < |front| ==> aliases[j] == front[j];
      }
    }
  }

  /** A subnet is declared exactly by a `cidr` alias of an enabled asset that can be read as a network. */
  lemma {:induction false} DeclaredMeans(parseNet: string -> Option<Network>, live: seq<Alias>, s: Subnet)
    ensures s in Declared(parseNet, live)
       <==> exists a :: a in live && a.kind == "cidr" && a.owner == s.owner && parseNet(a.value) == Some(s.net)
  {
    if live != [] {
      var front, last := live[..|live| - 1], live[|live| - 1];
      assert live == front + [last];
      DeclaredMeans(parseNet, front, s);
    }
  }

  /** Dead aliases are those whose owner is not enabled. */
  lemma LiveMeans(enabled: set<string>, aliases: seq<Alias>, a: Alias)
    ensures a in Live(enabled, aliases) <==> a in aliases && a.owner in enabled
  {
    FilterIn((x: Alias) => x.owner in enabled, aliases);
  }

  /** `s` is a declared subnet around the address, and none around it is more specific. */
  ghost predicate MostSpecific(declared: seq<Subnet>, a: Address, s: Subnet) {
    && s in declared && Contains(s.net, a)
    && forall t :: t in declared && Contains(t.net, a) ==> t.net.prefixLen <= s.net.prefixLen
  }

  /**
   * The answer for an address: its own alias first, else the owner of a most specific declared subnet around
   * it, else none.
   */
  lemma ResolveMeans(
    exact: map<(string, string), string>, declared: seq<Subnet>,
    parseAddr: string -> Option<Address>, value: string)
    ensures var r := Resolve(exact, declared, parseAddr, value);
            if ("ip", value) in exact then r == Some(exact[("ip", value)])
            else match parseAddr(value)
              case None => r == None
              case Some(a) =>
                match r
                case None => forall s :: s in declared ==> !Contains(s.net, a)
                case Some(owner) => exists s: Subnet :: s.owner == owner && MostSpecific(declared, a, s)
  {
    if ("ip", value) !in exact && parseAddr(value).Some? {
      var a := parseAddr(value).value;
      LongestIsLongest(declared, a);
      var found := Longest(declared, a);
      if found.Some? { assert MostSpecific(declared, a, found.value); }
    }
  }

  class AssetIndex {
    const parseNet: string -> Option<Network>
    const parseAddr: string -> Option<Address>
    const text: Network -> string
    var enabled: set<string>
    var people: set<string>
    var personOf: map<(string, string), string>
    var exact: map<(string, string), string>
    var cidrs: seq<Subnet>
    var memo: map<string, Option<string>>
    /** The subnets in declaration order, of which `cidrs` is the sorted form. */
    ghost var declared: seq<Subnet>

    ghost predicate Valid()
      reads this
    {
      && cidrs == SortBy((s, t) => SubnetLe(text, s, t), declared)
      && (forall k :: k in exact ==> exact[k] in enabled)
      && (forall k :: k in personOf ==> personOf[k] in people)
      && (forall s :: s in declared ==> s.owner in enabled)
      && |memo| <= MEMO_MAX
      && (forall v :: v in memo ==> parseAddr(v).Some?)
      && (forall v :: v in memo ==> memo[v] == Owner(FirstHit(cidrs, parseAddr(v).value)))
    }

    static function Owner(s: Option<Subnet>): Option<string> {
      if s.Some? then Some(s.value.owner) else None
    }

    /** Builds the tables: dead aliases dropped, subnets sorted most specific first. */
    constructor (
      assets: seq<Asset>, aliases: seq<Alias>, identities: seq<Identity>, identityAliases: seq<Alias>,
      parseNet: string -> Option<Network>, parseAddr: string -> Option<Address>, text: Network -> string)
      ensures Valid() && memo == map[]
      ensures this.parseAddr == parseAddr
      ensures enabled == set a | a in assets && a.enabled :: a.id
      ensures people == set p | p in identities && p.enabled :: p.id
      ensures exact == AliasMap(Live(enabled, aliases))
      ensures personOf == AliasMap(Live(people, identityAliases))
      ensures declared == Declared(parseNet, Live(enabled, aliases))
    {
      this.parseNet, this.parseAddr, this.text := parseNet, parseAddr, text;
      var on := set a | a in assets && a.enabled :: a.id;
      var table, nets := Tables(on, Live(on, aliases), parseNet);
      var known := set p | p in identities && p.enabled :: p.id;
      var persons, _ := Tables(known, Live(known, identityAliases), parseNet);
      enabled, exact, declared := on, table, nets;
      people, personOf := known, persons;
      cidrs := SortBy((s, t) => SubnetLe(text, s, t), nets);
      memo := map[];
      FilterIn((a: Alias) => a.owner in on, aliases);
      FilterIn((a: Alias) => a.owner in known, identityAliases);
    }

    /** `identity_for_alias`: never an identity that is disabled or gone. */
    function IdentityForAlias(kind: string, value: string): (r: Option<string>)
      requires Valid()
      reads this
      ensures r.Some? ==> r.value in people
      ensures r == if (kind, value) in personOf then Some(personOf[(kind, value)]) else None
    {
      if (kind, value) in personOf then Some(personOf[(kind, value)]) else None
    }

    /** The alias dictionary and the list of declared subnets, entry by entry. */
    static method Tables(on: set<string>, live: seq<Alias>, parseNet: string -> Option<Network>)
      returns (table: map<(string, string), string>, nets: seq<Subnet>)
      ensures table == AliasMap(live) && nets == Declared(parseNet, live)
      ensures (forall a :: a in live ==> a.owner in on) ==>
                (forall k :: k in table ==> table[k] in on) && (forall s :: s in nets ==> s.owner in on)
    {
      table, nets := map[], [];
      for i := 0 to |live|
        invariant table == AliasMap(live[..i])
        invariant nets == Declared(parseNet, live[..i])
        invariant (forall a :: a in live ==> a.owner in on) ==>
                    (forall k :: k in table ==> table[k] in on) && (forall s :: s in nets ==> s.owner in on)
      {
        var a := live[i];
        assert a in live;
        assert live[..i + 1][..i] == live[..i] && live[..i + 1][i] == a;
        table := table[(a.kind, a.value) := a.owner];
        if a.kind == "cidr" {
          var net := parseNet(a.value);
          if net.Some? {
            nets := nets + [Subnet(net.value, a.owner)];
          }
        }
      }
      assert live[..|live|] == live;
    }

    /** The first subnet that contains the address, most specific first. */
    method Scan(addr: Address) returns (found: Option<string>)
      ensures found == Owner(FirstHit(cidrs, addr))
    {
      var i := 0;
      while i < |cidrs|
        invariant 0 <= i <= |cidrs|
        invariant FirstHit(cidrs[i..], addr) == FirstHit(cidrs, addr)
      {
        assert cidrs[i..][0] == cidrs[i] && cidrs[i..][1..] == cidrs[i + 1..];
        if Contains(cidrs[i].net, addr) {
          return Some(cidrs[i].owner);
        }
        i := i + 1;
      }
      return None;
    }

    /**
     * Whatever lookups came before, and however often the memo was cleared, the answer is the
     * exact alias, else the owner of the longest declared network, else nothing.
     */
    method AssetForIp(value: string) returns (r: Option<string>)
      requires Valid()
      modifies this`memo
      ensures Valid()
      ensures r == Resolve(exact, declared, parseAddr, value)
      ensures r.Some? ==> r.value in enabled
    {
      if ("ip", value) in exact {
        return Some(exact[("ip", value)]);
      }
      ghost var a := parseAddr(value);
      if a.Some? {
        SortedScanIsLongest(text, declared, a.value);
        LongestIsLongest(declared, a.value);
      }
      if cidrs == [] {
        return None;
      }
      if value in memo {
        return memo[value];
      }
      var addr := parseAddr(value);
      if addr.None? {
        return None;
      }
      var found := Scan(addr.value);
      if |memo| >= MEMO_MAX {
        memo := map[];
      }
      memo := memo[value := found];
      return found;
    }
  }
}
