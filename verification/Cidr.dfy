/** Prefix arithmetic of the Windows firewall plan: subtracting and complementing CIDR
    prefixes. An address is its bits, most significant first, so 32 bits for IPv4 and 128
    for IPv6, and a prefix is an address with a count of leading bits, as in section 3.1 of
    RFC 4632. Setting bit `1 << (32 - childBits)` of the IPv4 word, or bit
    `7 - newBit % 8` of byte `newBit / 8` of the IPv6 address, is setting entry `bits`. */
module Cidr {

  type Bits = seq<bool>

  datatype Prefix = Prefix(addr: Bits, bits: nat)

  predicate Valid(p: Prefix) { p.bits <= |p.addr| }

  predicate Is4(p: Prefix) { |p.addr| == 32 }

  predicate Is6(p: Prefix) { |p.addr| == 128 }

  /** ::ffff:0:0/96, the IPv4-mapped addresses. */
  predicate Is4In6(p: Prefix) {
    && Is6(p)
    && (forall i :: 0 <= i < 80 ==> !p.addr[i])
    && (forall i :: 80 <= i < 96 ==> p.addr[i])
  }

  /** No bit is set behind the counted ones. */
  predicate Canonical(p: Prefix) {
    Valid(p) && forall i :: p.bits <= i < |p.addr| ==> !p.addr[i]
  }

  function Masked(p: Prefix): (m: Prefix)
    requires Valid(p)
    ensures Canonical(m) && m.bits == p.bits && |m.addr| == |p.addr|
    ensures m.addr[..m.bits] == p.addr[..p.bits]
  {
    Prefix(p.addr[..p.bits] + seq(|p.addr| - p.bits, i => false), p.bits)
  }

  /** The address belongs to the prefix. */
  predicate Covers(p: Prefix, a: Bits)
    requires Valid(p)
  {
    |a| == |p.addr| && a[..p.bits] == p.addr[..p.bits]
  }

  predicate Overlaps(p: Prefix, q: Prefix)
    requires Valid(p) && Valid(q)
  {
    && |p.addr| == |q.addr|
    && var shorter := if p.bits < q.bits then p.bits else q.bits;
       p.addr[..shorter] == q.addr[..shorter]
  }

  function LowHalf(p: Prefix): (h: Prefix)
    requires Canonical(p) && p.bits < |p.addr|
    ensures Canonical(h)
  {
    Prefix(p.addr, p.bits + 1)
  }

  function HighHalf(p: Prefix): (h: Prefix)
    requires Canonical(p) && p.bits < |p.addr|
    ensures Canonical(h)
  {
    Prefix(p.addr[p.bits := true], p.bits + 1)
  }

  /** The exclusion contains the whole candidate. */
  predicate Swallows(c: Prefix, e: Prefix)
    requires Valid(c) && Valid(e)
  {
    e.bits <= c.bits && Covers(e, c.addr)
  }

  /** subtractIPv4Prefix and subtractIPv6Prefix. */
  function Subtract(candidate: Prefix, exclusion: Prefix): seq<Prefix>
    requires Canonical(candidate) && Valid(exclusion)
    decreases |candidate.addr| - candidate.bits
  {
    if !Overlaps(candidate, exclusion) then [candidate]
    else if Swallows(candidate, exclusion) then []
    else if candidate.bits >= |candidate.addr| then []
    else Subtract(LowHalf(candidate), exclusion) + Subtract(HighHalf(candidate), exclusion)
  }

  // ---- What a complement should be ----

  /** Every address of p belongs to q. */
  predicate Inside(p: Prefix, q: Prefix)
    requires Valid(p) && Valid(q)
  {
    q.bits <= p.bits && Covers(q, p.addr)
  }

  predicate AllValid(ps: seq<Prefix>) { forall p :: p in ps ==> Valid(p) }

  predicate AllCanonical(ps: seq<Prefix>) { forall p :: p in ps ==> Canonical(p) }

  /** No address of p is excluded. */
  predicate Free(p: Prefix, excluded: seq<Prefix>)
    requires Valid(p) && AllValid(excluded)
  {
    forall e :: e in excluded ==> !Overlaps(p, e)
  }

  function Parent(p: Prefix): (q: Prefix)
    requires Canonical(p) && p.bits > 0
    ensures Canonical(q)
  {
    Prefix(p.addr[p.bits - 1 := false], p.bits - 1)
  }

  /** A largest prefix of the base without an excluded address: it is the whole base or its
      parent prefix meets an exclusion. */
  predicate Maximal(p: Prefix, base: Prefix, excluded: seq<Prefix>)
    requires Canonical(base) && AllValid(excluded)
  {
    && Canonical(p) && Inside(p, base) && Free(p, excluded)
    && (p == base || !Free(Parent(p), excluded))
  }

  predicate Apart(ps: seq<Prefix>)
    requires AllValid(ps)
  {
    forall i, j :: 0 <= i < j < |ps| ==> !Overlaps(ps[i], ps[j])
  }

  // ---- Subtraction ----

  lemma HalvesPartition(p: Prefix, q: Prefix)
    requires Canonical(p) && p.bits < |p.addr| && Canonical(q) && Inside(q, p)
    ensures q == p || Inside(q, LowHalf(p)) || Inside(q, HighHalf(p))
    ensures !Overlaps(LowHalf(p), HighHalf(p))
    ensures Parent(LowHalf(p)) == p && Parent(HighHalf(p)) == p
    ensures Inside(LowHalf(p), p) && Inside(HighHalf(p), p)
  {
    assert LowHalf(p).addr[p.bits] != HighHalf(p).addr[p.bits];
    assert LowHalf(p).addr[..p.bits + 1][p.bits] != HighHalf(p).addr[..p.bits + 1][p.bits];
    assert HighHalf(p).addr[p.bits := false] == p.addr;
    assert HighHalf(p).addr[..p.bits] == p.addr[..p.bits];
    if q.bits == p.bits {
      assert forall i :: 0 <= i < p.bits ==> q.addr[i] == q.addr[..p.bits][i] == p.addr[..p.bits][i] == p.addr[i];
      assert q.addr == p.addr;
    } else {
      assert q.addr[..p.bits + 1] == q.addr[..p.bits] + [q.addr[p.bits]];
      if q.addr[p.bits] {
        assert HighHalf(p).addr[..p.bits + 1] == p.addr[..p.bits] + [true];
      } else {
        assert LowHalf(p).addr[..p.bits + 1] == p.addr[..p.bits] + [false];
      }
    }
  }

  lemma TakeTake(a: Bits, b: Bits, m: nat, n: nat)
    requires m <= n <= |a| && n <= |b| && a[..n] == b[..n]
    ensures a[..m] == b[..m]
  {
    assert a[..m] == a[..n][..m] && b[..m] == b[..n][..m];
  }

  lemma InsideTransitive(p: Prefix, q: Prefix, r: Prefix)
    requires Valid(p) && Valid(q) && Valid(r) && Inside(p, q) && Inside(q, r)
    ensures Inside(p, r)
  {
    TakeTake(p.addr, q.addr, r.bits, q.bits);
  }

  /** Overlap passes to anything around either prefix. */
  lemma OverlapGrows(p: Prefix, q: Prefix, e: Prefix)
    requires Valid(p) && Valid(q) && Valid(e) && Inside(p, q) && Overlaps(p, e)
    ensures Overlaps(q, e)
  {
    var shorter := if p.bits < e.bits then p.bits else e.bits;
    var m := if q.bits < e.bits then q.bits else e.bits;
    TakeTake(p.addr, e.addr, m, shorter);
    TakeTake(p.addr, q.addr, m, q.bits);
  }

  /** Two overlapping prefixes are nested. */
  lemma OverlapNests(p: Prefix, q: Prefix)
    requires Valid(p) && Valid(q)
    ensures Overlaps(p, q) <==> Inside(p, q) || Inside(q, p)
    ensures Overlaps(p, q) <==> Overlaps(q, p)
  {
  }

  lemma ParentIsAround(p: Prefix)
    requires Canonical(p) && p.bits > 0
    ensures Inside(p, Parent(p))
  {
  }

  lemma SameLength(p: Prefix, q: Prefix)
    requires Canonical(p) && Canonical(q) && Inside(p, q)
    ensures p.bits == q.bits ==> p == q
  {
    if p.bits == q.bits {
      forall i | 0 <= i < |p.addr| ensures p.addr[i] == q.addr[i] {
        if i < p.bits { assert p.addr[i] == p.addr[..q.bits][i] == q.addr[..q.bits][i]; }
      }
      assert p.addr == q.addr;
    }
  }

  /** A proper sub-prefix of q has its parent inside q too. */
  lemma ParentStaysInside(p: Prefix, q: Prefix)
    requires Canonical(p) && Canonical(q) && Inside(p, q) && p != q
    ensures p.bits > q.bits && Inside(Parent(p), q)
  {
    SameLength(p, q);
    assert Parent(p).addr[..q.bits] == p.addr[..q.bits];
  }

  lemma InsideBothWays(p: Prefix, q: Prefix)
    requires Canonical(p) && Canonical(q) && Inside(p, q) && Inside(q, p)
    ensures p == q
  {
    SameLength(p, q);
  }

  /** Subtraction yields exactly the maximal prefixes of the candidate outside the exclusion. */
  lemma {:induction false} SubtractIsMaximal(c: Prefix, e: Prefix, p: Prefix)
    requires Canonical(c) && Valid(e)
    ensures p in Subtract(c, e) <==> Maximal(p, c, [e])
    decreases |c.addr| - c.bits
  {
    OverlapNests(c, e);
    if !Overlaps(c, e) {
      if Maximal(p, c, [e]) && p != c {
        ParentStaysInside(p, c);
        assert Overlaps(Parent(p), e);
        OverlapGrows(Parent(p), c, e);
      }
      assert Inside(c, c);
    } else if Swallows(c, e) {
      assert e in [e];
      if Canonical(p) && Inside(p, c) {
        InsideTransitive(p, c, e);
        OverlapNests(p, e);
      }
    } else {
      assert c.bits < |c.addr|;
      var low, high := LowHalf(c), HighHalf(c);
      SubtractIsMaximal(low, e, p);
      SubtractIsMaximal(high, e, p);
      HalvesPartition(c, low);
      assert !Free(c, [e]) by { assert e in [e]; }
      if p in Subtract(c, e) {
        InsideTransitive(p, if p in Subtract(low, e) then low else high, c);
      }
      if Maximal(p, c, [e]) {
        HalvesPartition(c, p);
      }
    }
  }

  lemma {:induction false} SubtractIsApart(c: Prefix, e: Prefix)
    requires Canonical(c) && Valid(e)
    ensures AllCanonical(Subtract(c, e)) && Apart(Subtract(c, e))
    ensures forall p :: p in Subtract(c, e) ==> Inside(p, c)
    decreases |c.addr| - c.bits
  {
    forall p | p in Subtract(c, e) ensures Canonical(p) && Inside(p, c) { SubtractIsMaximal(c, e, p); }
    if Overlaps(c, e) && !Swallows(c, e) && c.bits < |c.addr| {
      var low, high := LowHalf(c), HighHalf(c);
      SubtractIsApart(low, e);
      SubtractIsApart(high, e);
      HalvesPartition(c, low);
      ApartAppend(Subtract(low, e), Subtract(high, e), low, high);
    }
  }

  lemma ApartAppend(ps: seq<Prefix>, qs: seq<Prefix>, low: Prefix, high: Prefix)
    requires AllValid(ps) && AllValid(qs) && Valid(low) && Valid(high) && !Overlaps(low, high)
    requires Apart(ps) && Apart(qs)
    requires (forall p :: p in ps ==> Inside(p, low)) && (forall q :: q in qs ==> Inside(q, high))
    ensures AllValid(ps + qs) && Apart(ps + qs)
  {
    forall p, q | p in ps && q in qs ensures !Overlaps(p, q) { DisjointInside(p, q, low, high); }
  }

  lemma DisjointInside(p: Prefix, q: Prefix, low: Prefix, high: Prefix)
    requires Valid(p) && Valid(q) && Valid(low) && Valid(high)
    requires Inside(p, low) && Inside(q, high) && !Overlaps(low, high)
    ensures !Overlaps(p, q)
  {
    if Overlaps(p, q) {
      OverlapGrows(p, low, q);
      OverlapNests(low, q);
      OverlapGrows(q, high, low);
      OverlapNests(high, low);
    }
  }

  // ---- Complements ----

  lemma FreeInside(p: Prefix, q: Prefix, excluded: seq<Prefix>)
    requires Valid(p) && Valid(q) && AllValid(excluded) && Inside(p, q) && Free(q, excluded)
    ensures Free(p, excluded)
  {
    forall e | e in excluded ensures !Overlaps(p, e) {
      if Overlaps(p, e) { OverlapGrows(p, q, e); }
    }
  }

  /** Every free prefix of the base lies in a maximal one. */
  lemma {:induction false} Ascend(p: Prefix, base: Prefix, excluded: seq<Prefix>) returns (m: Prefix)
    requires Canonical(p) && Canonical(base) && AllValid(excluded) && Inside(p, base) && Free(p, excluded)
    ensures Maximal(m, base, excluded) && Inside(p, m)
    decreases p.bits
  {
    if p == base || !Free(Parent(p), excluded) { return p; }
    ParentStaysInside(p, base);
    m := Ascend(Parent(p), base, excluded);
    ParentIsAround(p);
    InsideTransitive(p, Parent(p), m);
  }

  lemma MaximalAreApart(p: Prefix, q: Prefix, base: Prefix, excluded: seq<Prefix>)
    requires Canonical(base) && AllValid(excluded) && Maximal(p, base, excluded) && Maximal(q, base, excluded)
    ensures p == q || !Overlaps(p, q)
  {
    OverlapNests(p, q);
    if Overlaps(p, q) && p != q {
      if Inside(p, q) { NotMaximalInside(p, q, base, excluded); } else { NotMaximalInside(q, p, base, excluded); }
    }
  }

  lemma NotMaximalInside(p: Prefix, q: Prefix, base: Prefix, excluded: seq<Prefix>)
    requires Canonical(base) && AllValid(excluded) && Maximal(p, base, excluded)
    requires Canonical(q) && Inside(p, q) && Inside(q, base) && Free(q, excluded)
    ensures p == q
  {
    if p != q {
      ParentStaysInside(p, q);
      FreeInside(Parent(p), q, excluded);
      InsideBothWays(base, q);
    }
  }

  /** Subtracting one more exclusion from every maximal prefix yields the maximal prefixes
      of the longer exclusion list. */
  lemma SubtractExtends(p: Prefix, c: Prefix, base: Prefix, excluded: seq<Prefix>, e: Prefix)
    requires Canonical(base) && AllValid(excluded) && Valid(e) && Maximal(c, base, excluded)
    requires p in Subtract(c, e)
    ensures Maximal(p, base, excluded + [e])
  {
    SubtractIsMaximal(c, e, p);
    InsideTransitive(p, c, base);
    FreeInside(p, c, excluded);
    assert e in [e] && e in excluded + [e];
    if p != c {
      assert !Free(Parent(p), [e]);
    } else if p != base {
      var x :| x in excluded && Overlaps(Parent(p), x);
      assert x in excluded + [e];
    }
  }

  lemma MaximalComesFrom(p: Prefix, base: Prefix, excluded: seq<Prefix>, e: Prefix) returns (c: Prefix)
    requires Canonical(base) && AllValid(excluded) && Valid(e) && AllValid(excluded + [e])
    requires Maximal(p, base, excluded + [e])
    ensures Maximal(c, base, excluded) && p in Subtract(c, e)
  {
    assert Valid(p);
    assert Free(p, excluded) by { forall x | x in excluded ensures !Overlaps(p, x) { assert x in excluded + [e]; } }
    assert Free(p, [e]) by { assert e in excluded + [e]; }
    c := Ascend(p, base, excluded);
    if p != c {
      ParentStaysInside(p, c);
      FreeInside(Parent(p), c, excluded);
      if p == base { InsideBothWays(base, c); }
      assert e in [e];
    }
    SubtractIsMaximal(c, e, p);
  }

  /** The list holds the maximal prefixes of the base outside the exclusions, once each. */
  ghost predicate Complements(ps: seq<Prefix>, base: Prefix, excluded: seq<Prefix>)
    requires Canonical(base) && AllValid(excluded)
  {
    && AllCanonical(ps) && AllValid(ps) && Apart(ps)
    && (forall p :: p in ps <==> Maximal(p, base, excluded))
  }

  /** The inner loop of the complement functions. */
  method SubtractFromAll(remaining: seq<Prefix>, e: Prefix, ghost base: Prefix, ghost done: seq<Prefix>) returns (next: seq<Prefix>)
    requires Canonical(base) && AllValid(done) && Valid(e) && Complements(remaining, base, done)
    ensures AllValid(done + [e]) && Complements(next, base, done + [e])
  {
    next := [];
    for i := 0 to |remaining|
      invariant AllCanonical(next) && AllValid(next) && Apart(next)
      invariant forall p :: p in next <==> exists j :: 0 <= j < i && p in Subtract(remaining[j], e)
      invariant forall p :: p in next ==> exists j :: 0 <= j < i && Inside(p, remaining[j])
    {
      var c := remaining[i];
      var more := Subtract(c, e);
      SubtractIsApart(c, e);
      forall p, q | p in next && q in more ensures !Overlaps(p, q) {
        var j :| 0 <= j < i && Inside(p, remaining[j]);
        DisjointInside(p, q, remaining[j], c);
      }
      next := next + more;
    }
    forall p | p in next ensures Maximal(p, base, done + [e]) {
      var j :| 0 <= j < |remaining| && p in Subtract(remaining[j], e);
      assert remaining[j] in remaining;
      SubtractExtends(p, remaining[j], base, done, e);
    }
    forall p | Maximal(p, base, done + [e]) ensures p in next {
      var c := MaximalComesFrom(p, base, done, e);
      var j :| 0 <= j < |remaining| && remaining[j] == c;
    }
  }

  /** An exclusion that the complement of this family takes into account. One that is not valid
      overlaps nothing, so it may as well be skipped. */
  predicate Considered(e: Prefix, base: Prefix) {
    Valid(e) && if Is4(base) then Is4(e) else Is6(e) && !Is4In6(e)
  }

  /** The exclusions a complement is computed from: those of its family, masked. */
  function Relevant(excluded: seq<Prefix>, base: Prefix): (r: seq<Prefix>)
    ensures AllCanonical(r)
    ensures forall e :: e in r <==> exists x :: x in excluded && Considered(x, base) && e == Masked(x)
  {
    if excluded == [] then []
    else
      var x := excluded[0];
      var rest := Relevant(excluded[1..], base);
      if Considered(x, base) then [Masked(x)] + rest else rest
  }

  lemma {:induction false} RelevantSnoc(excluded: seq<Prefix>, x: Prefix, base: Prefix)
    ensures Relevant(excluded + [x], base) == Relevant(excluded, base) + if Considered(x, base) then [Masked(x)] else []
  {
    if excluded == [] {
      assert excluded + [x] == [x];
      assert [x][1..] == [];
    } else {
      assert (excluded + [x])[1..] == excluded[1..] + [x];
      RelevantSnoc(excluded[1..], x, base);
    }
  }

  /** The loop shared by complementIPv4Prefixes and complementIPv6From, before sorting. */
  method ComplementUnsorted(base: Prefix, excluded: seq<Prefix>) returns (remaining: seq<Prefix>)
    requires Canonical(base) && (Is4(base) || Is6(base))
    ensures Complements(remaining, base, Relevant(excluded, base))
  {
    remaining := [base];
    assert Inside(base, base);
    assert Relevant(excluded[..0], base) == [];
    forall p | Maximal(p, base, []) ensures p in remaining {}
    for i := 0 to |excluded|
      invariant Complements(remaining, base, Relevant(excluded[..i], base))
    {
      assert excluded[..i + 1] == excluded[..i] + [excluded[i]];
      RelevantSnoc(excluded[..i], excluded[i], base);
      if Considered(excluded[i], base) {
        remaining := SubtractFromAll(remaining, Masked(excluded[i]), base, Relevant(excluded[..i], base));
      }
    }
    assert excluded[..|excluded|] == excluded;
  }

  // ---- What the complement covers ----

  predicate Excluded(excluded: seq<Prefix>, a: Bits) {
    exists e :: e in excluded && Valid(e) && Covers(e, a)
  }

  /** An address of the base stays in the complement unless some exclusion contains it. */
  predicate Allowed(base: Prefix, excluded: seq<Prefix>, a: Bits)
    requires Valid(base)
  {
    Covers(base, a) && !Excluded(excluded, a)
  }

  lemma FreeIffNoAddressExcluded(p: Prefix, excluded: seq<Prefix>)
    requires Valid(p) && AllValid(excluded)
    ensures Free(p, excluded) <==> forall a: Bits :: Covers(p, a) ==> !Excluded(excluded, a)
  {
    if Free(p, excluded) {
      forall a: Bits | Covers(p, a) ensures !Excluded(excluded, a) {
        if Excluded(excluded, a) {
          var e :| e in excluded && Covers(e, a);
          SharedAddress(p, e, a);
        }
      }
    } else {
      var e :| e in excluded && Overlaps(p, e);
      OverlapNests(p, e);
      var a := if Inside(p, e) then p.addr else e.addr;
      assert Covers(e, a) && Covers(p, a);
    }
  }

  lemma SharedAddress(p: Prefix, q: Prefix, a: Bits)
    requires Valid(p) && Valid(q) && Covers(p, a) && Covers(q, a)
    ensures Overlaps(p, q)
  {
    var shorter := if p.bits < q.bits then p.bits else q.bits;
    TakeTake(p.addr, a, shorter, p.bits);
    TakeTake(q.addr, a, shorter, q.bits);
  }

  lemma CoverInside(p: Prefix, q: Prefix, a: Bits)
    requires Valid(p) && Valid(q) && Inside(p, q) && Covers(p, a)
    ensures Covers(q, a)
  {
    TakeTake(a, p.addr, q.bits, p.bits);
  }

  /** The union of the complement is the base minus the union of the exclusions. */
  lemma ComplementCoversExactly(ps: seq<Prefix>, base: Prefix, excluded: seq<Prefix>, a: Bits)
    requires Canonical(base) && AllValid(excluded) && Complements(ps, base, excluded)
    ensures (exists p :: p in ps && Covers(p, a)) <==> Allowed(base, excluded, a)
  {
    if p :| p in ps && Covers(p, a) {
      CoverInside(p, base, a);
      FreeIffNoAddressExcluded(p, excluded);
    }
    if Allowed(base, excluded, a) {
      var host := Prefix(a, |a|);
      assert forall x: Bits :: Covers(host, x) ==> x == a;
      FreeIffNoAddressExcluded(host, excluded);
      var m := Ascend(host, base, excluded);
      assert m in ps && Covers(m, a);
    }
  }

  /** The complement depends only on which addresses are excluded: not on the order, the
      repetition or the splitting of the exclusions. */
  lemma ComplementsAgree(ps: seq<Prefix>, qs: seq<Prefix>, base: Prefix, excluded: seq<Prefix>, others: seq<Prefix>, p: Prefix)
    requires Canonical(base) && AllValid(excluded) && AllValid(others)
    requires Complements(ps, base, excluded) && Complements(qs, base, others)
    requires SameExcluded(excluded, others, base)
    ensures p in ps <==> p in qs
  {
    if Canonical(p) && Inside(p, base) {
      SameFreedom(p, base, excluded, others);
      if p != base {
        ParentStaysInside(p, base);
        SameFreedom(Parent(p), base, excluded, others);
      }
    }
  }

  lemma SameFreedom(p: Prefix, base: Prefix, excluded: seq<Prefix>, others: seq<Prefix>)
    requires Valid(p) && Valid(base) && Inside(p, base) && AllValid(excluded) && AllValid(others)
    requires SameExcluded(excluded, others, base)
    ensures Free(p, excluded) <==> Free(p, others)
  {
    FreeIffNoAddressExcluded(p, excluded);
    FreeIffNoAddressExcluded(p, others);
    forall a: Bits | Covers(p, a) ensures Covers(base, a) { CoverInside(p, base, a); }
  }

  // ---- No cover is smaller ----

  /** The prefixes in `cover` together hold exactly the allowed addresses. */
  ghost predicate CoversAllowed(cover: set<Prefix>, base: Prefix, excluded: seq<Prefix>)
    requires Valid(base)
  {
    && (forall c :: c in cover ==> Valid(c))
    && (forall a: Bits :: (exists c :: c in cover && Covers(c, a)) <==> Allowed(base, excluded, a))
  }

  /** Each maximal prefix contains a whole member of any cover. */
  lemma CoverMeetsEachMaximal(cover: set<Prefix>, base: Prefix, excluded: seq<Prefix>, m: Prefix) returns (c: Prefix)
    requires Canonical(base) && AllValid(excluded) && CoversAllowed(cover, base, excluded) && Maximal(m, base, excluded)
    ensures c in cover && Inside(c, m)
  {
    FreeIffNoAddressExcluded(m, excluded);
    assert Covers(m, m.addr) && Allowed(base, excluded, m.addr);
    c :| c in cover && Covers(c, m.addr);
    var n := Masked(c);
    assert forall a: Bits :: Covers(n, a) <==> Covers(c, a);
    forall a: Bits | Covers(n, a) ensures !Excluded(excluded, a) && Covers(base, a) {
      assert Allowed(base, excluded, a);
    }
    FreeIffNoAddressExcluded(n, excluded);
    SharedAddress(n, m, m.addr);
    OverlapNests(n, m);
    if !Inside(n, m) {
      WithinBase(n, base);
      NotMaximalInside(m, n, base, excluded);
    }
    assert Inside(c, m) by { TakeTake(c.addr, n.addr, m.bits, n.bits); }
  }

  lemma EscapingAddress(n: Prefix, base: Prefix) returns (a: Bits)
    requires Valid(n) && Valid(base) && |n.addr| == |base.addr| && n.bits < base.bits
    ensures Covers(n, a) && !Covers(base, a)
  {
    a := n.addr[n.bits := !base.addr[n.bits]];
    assert a[..n.bits] == n.addr[..n.bits];
    assert a[..base.bits][n.bits] != base.addr[..base.bits][n.bits];
  }

  /** A prefix all of whose addresses lie in the base is inside the base. */
  lemma WithinBase(n: Prefix, base: Prefix)
    requires Valid(n) && Valid(base) && forall a: Bits :: Covers(n, a) ==> Covers(base, a)
    ensures Inside(n, base)
  {
    assert Covers(n, n.addr);
    if n.bits < base.bits { var a := EscapingAddress(n, base); }
  }

  lemma {:induction false} NoSmallerCover(ps: seq<Prefix>, cover: set<Prefix>)
    requires AllCanonical(ps) && AllValid(ps) && Apart(ps)
    requires forall c :: c in cover ==> Valid(c)
    requires forall p :: p in ps ==> exists c :: c in cover && Inside(c, p)
    ensures |ps| <= |cover|
  {
    if ps != [] {
      var p := ps[0];
      var inside := set c | c in cover && Inside(c, p);
      var rest := cover - inside;
      forall q | q in ps[1..] ensures exists c :: c in rest && Inside(c, q) {
        assert q in ps;
        var c :| c in cover && Inside(c, q);
        var j :| 0 <= j < |ps| - 1 && ps[1..][j] == q;
        assert !Overlaps(ps[0], ps[j + 1]);
        if Inside(c, p) { SharedAddress(p, q, c.addr); }
      }
      NoSmallerCover(ps[1..], rest);
      assert p in ps;
      var c :| c in cover && Inside(c, p);
      assert c in inside && inside <= cover;
      assert cover == rest + inside && rest !! inside;
      assert |cover| == |rest| + |inside|;
    }
  }

  /** The complement is a minimal cover: no set of prefixes that holds exactly the allowed
      addresses has fewer members. */
  lemma ComplementIsMinimal(ps: seq<Prefix>, base: Prefix, excluded: seq<Prefix>, cover: set<Prefix>)
    requires Canonical(base) && AllValid(excluded) && Complements(ps, base, excluded)
    requires CoversAllowed(cover, base, excluded)
    ensures |ps| <= |cover|
  {
    forall p | p in ps ensures exists c :: c in cover && Inside(c, p) {
      var c := CoverMeetsEachMaximal(cover, base, excluded, p);
    }
    NoSmallerCover(ps, cover);
  }

  // ---- Sizes ----

  function Pow2(n: nat): (r: nat)
    ensures r > 0
  {
    if n == 0 then 1 else 2 * Pow2(n - 1)
  }

  function Prepend(head: Bits, tails: set<Bits>): set<Bits> {
    set t | t in tails :: head + t
  }

  function AllBits(n: nat): set<Bits> {
    if n == 0 then {[]} else Prepend([false], AllBits(n - 1)) + Prepend([true], AllBits(n - 1))
  }

  lemma {:induction false} AllBitsAreAll(n: nat, s: Bits)
    ensures s in AllBits(n) <==> |s| == n
  {
    if n > 0 {
      if |s| == n {
        AllBitsAreAll(n - 1, s[1..]);
        assert s == [s[0]] + s[1..];
        assert s in if s[0] then Prepend([true], AllBits(n - 1)) else Prepend([false], AllBits(n - 1));
      } else if s in AllBits(n) {
        var t :| t in AllBits(n - 1) && (s == [false] + t || s == [true] + t);
        AllBitsAreAll(n - 1, t);
      }
    }
  }

  lemma {:induction false} PrependKeepsSize(head: Bits, tails: set<Bits>)
    ensures |Prepend(head, tails)| == |tails|
  {
    if tails != {} {
      var x :| x in tails;
      PrependKeepsSize(head, tails - {x});
      forall t | t in tails && head + t == head + x ensures t == x {
        assert (head + t)[|head|..] == t && (head + x)[|head|..] == x;
      }
      assert Prepend(head, tails) == Prepend(head, tails - {x}) + {head + x};
      assert head + x !in Prepend(head, tails - {x});
    }
  }

  lemma {:induction false} AllBitsSize(n: nat)
    ensures |AllBits(n)| == Pow2(n)
  {
    if n > 0 {
      AllBitsSize(n - 1);
      var low, high := Prepend([false], AllBits(n - 1)), Prepend([true], AllBits(n - 1));
      PrependKeepsSize([false], AllBits(n - 1));
      PrependKeepsSize([true], AllBits(n - 1));
      forall s | s in low ensures s !in high { assert s[0] == false; }
      assert low !! high;
    }
  }

  /** The addresses of a prefix, as a set. */
  function AddressesOf(p: Prefix): set<Bits>
    requires Valid(p)
  {
    Prepend(p.addr[..p.bits], AllBits(|p.addr| - p.bits))
  }

  lemma AddressesAreCovered(p: Prefix, a: Bits)
    requires Valid(p)
    ensures a in AddressesOf(p) <==> Covers(p, a)
  {
    var n := |p.addr| - p.bits;
    if Covers(p, a) {
      AllBitsAreAll(n, a[p.bits..]);
      assert a == p.addr[..p.bits] + a[p.bits..];
    }
    if a in AddressesOf(p) {
      var s :| s in AllBits(n) && a == p.addr[..p.bits] + s;
      AllBitsAreAll(n, s);
      assert a[..p.bits] == p.addr[..p.bits];
    }
  }

  lemma PrefixSize(p: Prefix)
    requires Valid(p)
    ensures |AddressesOf(p)| == Pow2(|p.addr| - p.bits)
  {
    PrependKeepsSize(p.addr[..p.bits], AllBits(|p.addr| - p.bits));
    AllBitsSize(|p.addr| - p.bits);
  }

  function TotalSize(ps: seq<Prefix>): nat
    requires AllValid(ps)
  {
    if ps == [] then 0
    else
      assert ps[0] in ps;
      Pow2(|ps[0].addr| - ps[0].bits) + TotalSize(ps[1..])
  }

  function AllAddresses(ps: seq<Prefix>): set<Bits>
    requires AllValid(ps)
  {
    if ps == [] then {}
    else
      assert ps[0] in ps;
      AddressesOf(ps[0]) + AllAddresses(ps[1..])
  }

  lemma {:induction false} AllAddressesAreCovered(ps: seq<Prefix>, a: Bits)
    requires AllValid(ps)
    ensures a in AllAddresses(ps) <==> exists p :: p in ps && Covers(p, a)
  {
    if ps != [] {
      assert ps[0] in ps;
      AllAddressesAreCovered(ps[1..], a);
      AddressesAreCovered(ps[0], a);
      assert forall p :: p in ps <==> p == ps[0] || p in ps[1..];
    }
  }

  lemma {:induction false} SizesAdd(ps: seq<Prefix>)
    requires AllValid(ps) && Apart(ps)
    ensures |AllAddresses(ps)| == TotalSize(ps)
  {
    if ps != [] {
      var p, rest := ps[0], ps[1..];
      assert p in ps;
      SizesAdd(rest);
      PrefixSize(p);
      forall a | a in AddressesOf(p) ensures a !in AllAddresses(rest) {
        AddressesAreCovered(p, a);
        AllAddressesAreCovered(rest, a);
        forall q | q in rest ensures !Covers(q, a) {
          var j :| 0 <= j < |rest| && rest[j] == q;
          assert !Overlaps(ps[0], ps[j + 1]);
          if Covers(q, a) { SharedAddress(p, q, a); }
        }
      }
      assert AddressesOf(p) !! AllAddresses(rest);
    }
  }

  /** The sizes of the complement's prefixes add up to the number of allowed addresses. */
  lemma ComplementSize(ps: seq<Prefix>, base: Prefix, excluded: seq<Prefix>)
    requires Canonical(base) && AllValid(excluded) && Complements(ps, base, excluded)
    ensures TotalSize(ps) == |set a | a in AddressesOf(base) && !Excluded(excluded, a)|
  {
    SizesAdd(ps);
    var allowed := set a | a in AddressesOf(base) && !Excluded(excluded, a);
    forall a ensures a in allowed <==> a in AllAddresses(ps) {
      AddressesAreCovered(base, a);
      AllAddressesAreCovered(ps, a);
      ComplementCoversExactly(ps, base, excluded, a);
    }
    assert allowed == AllAddresses(ps);
  }

  // ---- The sorted results ----

  ghost predicate StrictOrder(before: (Prefix, Prefix) -> bool, width: nat) {
    && (forall p: Prefix, q: Prefix, r: Prefix :: before(p, q) && before(q, r) ==> before(p, r))
    && (forall p: Prefix :: !before(p, p))
    && (forall p: Prefix, q: Prefix :: |p.addr| == |q.addr| == width && p != q ==> before(p, q) || before(q, p))
  }

  predicate StrictlySorted(ps: seq<Prefix>, before: (Prefix, Prefix) -> bool) {
    forall i, j :: 0 <= i < j < |ps| ==> before(ps[i], ps[j])
  }

  /** Only one strictly sorted list has given elements. */
  lemma {:induction false} SortedIsUnique(ps: seq<Prefix>, qs: seq<Prefix>, before: (Prefix, Prefix) -> bool, width: nat)
    requires StrictOrder(before, width) && StrictlySorted(ps, before) && StrictlySorted(qs, before)
    requires forall p :: p in ps <==> p in qs
    ensures ps == qs
  {
    assert qs == [] || qs[0] in qs;
    if ps != [] {
      assert ps[0] in ps && ps[0] in qs;
      assert qs[0] in qs && qs[0] in ps;
      assert ps[0] == qs[0];
      forall p ensures p in ps[1..] <==> p in qs[1..] {
        assert p in ps <==> p == ps[0] || p in ps[1..];
        assert p in qs <==> p == qs[0] || p in qs[1..];
        assert !before(ps[0], ps[0]);
        assert p in ps[1..] ==> before(ps[0], p);
        assert p in qs[1..] ==> before(qs[0], p);
      }
      SortedIsUnique(ps[1..], qs[1..], before, width);
      assert ps == [ps[0]] + ps[1..] && qs == [qs[0]] + qs[1..];
    }
  }

  function Insert(p: Prefix, ps: seq<Prefix>, before: (Prefix, Prefix) -> bool): seq<Prefix> {
    if ps == [] || before(p, ps[0]) then [p] + ps else [ps[0]] + Insert(p, ps[1..], before)
  }

  /** The library sort, by the given order. */
  function Sort(ps: seq<Prefix>, before: (Prefix, Prefix) -> bool): seq<Prefix> {
    if ps == [] then [] else Insert(ps[0], Sort(ps[1..], before), before)
  }

  lemma {:induction false} InsertSorts(p: Prefix, ps: seq<Prefix>, before: (Prefix, Prefix) -> bool, width: nat)
    requires StrictOrder(before, width) && StrictlySorted(ps, before) && p !in ps
    requires |p.addr| == width && forall q :: q in ps ==> |q.addr| == width
    ensures StrictlySorted(Insert(p, ps, before), before)
    ensures forall q :: q in Insert(p, ps, before) <==> q == p || q in ps
    ensures |Insert(p, ps, before)| == |ps| + 1
  {
    if ps != [] && !before(p, ps[0]) {
      assert ps[0] in ps;
      InsertSorts(p, ps[1..], before, width);
      var tail := Insert(p, ps[1..], before);
      forall q | q in tail ensures before(ps[0], q) {
        if q != p {
          assert q in ps[1..];
        }
      }
      assert ps == [ps[0]] + ps[1..];
    }
  }

  lemma {:induction false} SortSorts(ps: seq<Prefix>, before: (Prefix, Prefix) -> bool, width: nat)
    requires StrictOrder(before, width) && forall p :: p in ps ==> |p.addr| == width
    requires forall i, j :: 0 <= i < j < |ps| ==> ps[i] != ps[j]
    ensures StrictlySorted(Sort(ps, before), before)
    ensures forall p :: p in Sort(ps, before) <==> p in ps
    ensures |Sort(ps, before)| == |ps|
  {
    if ps != [] {
      SortSorts(ps[1..], before, width);
      assert ps[0] !in ps[1..];
      InsertSorts(ps[0], Sort(ps[1..], before), before, width);
    }
  }

  lemma SortedComplements(ps: seq<Prefix>, base: Prefix, excluded: seq<Prefix>, before: (Prefix, Prefix) -> bool)
    requires Canonical(base) && AllValid(excluded) && Complements(ps, base, excluded)
    requires StrictOrder(before, |base.addr|)
    ensures Complements(Sort(ps, before), base, excluded) && StrictlySorted(Sort(ps, before), before)
  {
    forall i, j | 0 <= i < j < |ps| ensures ps[i] != ps[j] { assert !Overlaps(ps[i], ps[j]); }
    SortSorts(ps, before, |base.addr|);
    var qs := Sort(ps, before);
    forall i, j | 0 <= i < j < |qs| ensures !Overlaps(qs[i], qs[j]) {
      assert qs[i] in ps && qs[j] in ps && before(qs[i], qs[j]);
      MaximalAreApart(qs[i], qs[j], base, excluded);
    }
  }

  /** The big-endian value of an address. */
  function Number(a: Bits): nat {
    if a == [] then 0 else 2 * Number(a[..|a| - 1]) + if a[|a| - 1] then 1 else 0
  }

  lemma {:induction false} NumberIsInjective(a: Bits, b: Bits)
    requires |a| == |b| && Number(a) == Number(b)
    ensures a == b
  {
    if a != [] {
      NumberIsInjective(a[..|a| - 1], b[..|b| - 1]);
      assert a == a[..|a| - 1] + [a[|a| - 1]] && b == b[..|b| - 1] + [b[|b| - 1]];
    }
  }

  function NumericBefore(p: Prefix, q: Prefix): bool {
    Number(p.addr) < Number(q.addr) || (Number(p.addr) == Number(q.addr) && p.bits < q.bits)
  }

  lemma NumericIsStrict(width: nat)
    ensures StrictOrder(NumericBefore, width)
  {
    forall p: Prefix, q: Prefix | |p.addr| == |q.addr| == width && p != q ensures NumericBefore(p, q) || NumericBefore(q, p) {
      if Number(p.addr) == Number(q.addr) { NumberIsInjective(p.addr, q.addr); }
    }
  }

  /** Two exclusion lists with the same excluded addresses give the very same sorted list. */
  lemma ResultIgnoresOrderAndRepetition(ps: seq<Prefix>, qs: seq<Prefix>, base: Prefix, excluded: seq<Prefix>, others: seq<Prefix>,
                                        before: (Prefix, Prefix) -> bool)
    requires Canonical(base) && AllValid(excluded) && AllValid(others) && StrictOrder(before, |base.addr|)
    requires Complements(ps, base, excluded) && StrictlySorted(ps, before)
    requires Complements(qs, base, others) && StrictlySorted(qs, before)
    requires SameExcluded(excluded, others, base)
    ensures ps == qs
  {
    forall p ensures p in ps <==> p in qs { ComplementsAgree(ps, qs, base, excluded, others, p); }
    SortedIsUnique(ps, qs, before, |base.addr|);
  }

  ghost predicate SameExcluded(excluded: seq<Prefix>, others: seq<Prefix>, base: Prefix)
    requires Valid(base)
  {
    forall a: Bits :: Covers(base, a) ==> (Excluded(excluded, a) <==> Excluded(others, a))
  }

  // ---- The arguments, and what of them counts ----

  lemma MaskedCoversTheSame(e: Prefix, a: Bits)
    requires Valid(e)
    ensures Covers(Masked(e), a) <==> Covers(e, a)
  {
  }

  /** The considered exclusions exclude what the considered ones among the arguments exclude. */
  lemma RelevantExcludes(excluded: seq<Prefix>, base: Prefix, a: Bits)
    ensures Excluded(Relevant(excluded, base), a) <==> exists x :: x in excluded && Considered(x, base) && Covers(x, a)
  {
    if Excluded(Relevant(excluded, base), a) {
      var e :| e in Relevant(excluded, base) && Valid(e) && Covers(e, a);
      var x :| x in excluded && Considered(x, base) && e == Masked(x);
      MaskedCoversTheSame(x, a);
    }
    if x :| x in excluded && Considered(x, base) && Covers(x, a) {
      MaskedCoversTheSame(x, a);
      assert Masked(x) in Relevant(excluded, base);
    }
  }

  /** Of a 32-bit base every argument that could exclude an address is considered. */
  lemma RelevantIsAll4(excluded: seq<Prefix>, base: Prefix)
    requires Is4(base) && Valid(base)
    ensures SameExcluded(Relevant(excluded, base), excluded, base)
  {
    forall a: Bits | Covers(base, a) ensures Excluded(Relevant(excluded, base), a) <==> Excluded(excluded, a) {
      RelevantExcludes(excluded, base, a);
    }
  }

  /** An IPv6 exclusion that is skipped because its address is an IPv4-mapped one. */
  predicate Skipped(e: Prefix) { Valid(e) && Is4In6(e) }

  /** What two overlapping prefixes share: the longer of them. */
  function Shared(e: Prefix, base: Prefix): (m: Prefix)
    requires Valid(e) && Canonical(base)
    ensures Canonical(m)
  {
    if e.bits <= base.bits then base else Masked(e)
  }

  /** Nothing of m would be left after subtracting what is considered. */
  ghost predicate UsedUp(m: Prefix, excluded: seq<Prefix>, base: Prefix)
    requires Canonical(m)
  {
    forall p :: !Maximal(p, m, Relevant(excluded, base))
  }

  /** The arguments of a 128-bit complement all count if and only if of each skipped exclusion that
      meets the base, the others use up what it shares with the base. */
  lemma RelevantIsAll6Iff(excluded: seq<Prefix>, base: Prefix)
    requires Is6(base) && Canonical(base)
    ensures SameExcluded(Relevant(excluded, base), excluded, base)
       <==> forall e :: e in excluded && Skipped(e) && Overlaps(e, base) ==> UsedUp(Shared(e, base), excluded, base)
  {
    if SameExcluded(Relevant(excluded, base), excluded, base) {
      forall e | e in excluded && Skipped(e) && Overlaps(e, base) ensures UsedUp(Shared(e, base), excluded, base) {
        CountedIsUsedUp(excluded, base, e);
      }
    }
    if forall e :: e in excluded && Skipped(e) && Overlaps(e, base) ==> UsedUp(Shared(e, base), excluded, base) {
      forall a: Bits | Covers(base, a) ensures Excluded(Relevant(excluded, base), a) <==> Excluded(excluded, a) {
        RelevantExcludes(excluded, base, a);
        if Excluded(excluded, a) {
          var e :| e in excluded && Valid(e) && Covers(e, a);
          if Skipped(e) {
            SharedAddress(e, base, a);
            UsedUpIsExcluded(excluded, base, e, a);
          }
        }
      }
    }
  }

  lemma CountedIsUsedUp(excluded: seq<Prefix>, base: Prefix, e: Prefix)
    requires Is6(base) && Canonical(base) && SameExcluded(Relevant(excluded, base), excluded, base)
    requires e in excluded && Skipped(e) && Overlaps(e, base)
    ensures UsedUp(Shared(e, base), excluded, base)
  {
    forall p ensures !Maximal(p, Shared(e, base), Relevant(excluded, base)) {
      if Maximal(p, Shared(e, base), Relevant(excluded, base)) { LeftoverDiffers(excluded, base, e, p); }
    }
  }

  lemma LeftoverDiffers(excluded: seq<Prefix>, base: Prefix, e: Prefix, p: Prefix)
    requires Is6(base) && Canonical(base) && e in excluded && Skipped(e) && Overlaps(e, base)
    requires Maximal(p, Shared(e, base), Relevant(excluded, base))
    ensures !SameExcluded(Relevant(excluded, base), excluded, base)
  {
    CoverInside(p, Shared(e, base), p.addr);
    SharedIsInBoth(e, base, p.addr);
    FreeIffNoAddressExcluded(p, Relevant(excluded, base));
    assert Covers(base, p.addr) && Excluded(excluded, p.addr) && !Excluded(Relevant(excluded, base), p.addr);
  }

  lemma SharedIsInBoth(e: Prefix, base: Prefix, a: Bits)
    requires Valid(e) && Canonical(base) && Overlaps(e, base)
    ensures Covers(Shared(e, base), a) <==> Covers(e, a) && Covers(base, a)
  {
    MaskedCoversTheSame(e, a);
    OverlapNests(e, base);
    if e.bits <= base.bits {
      if Covers(base, a) { TakeTake(a, base.addr, e.bits, base.bits); }
    } else if Covers(e, a) {
      TakeTake(a, e.addr, base.bits, e.bits);
    }
  }

  lemma UsedUpIsExcluded(excluded: seq<Prefix>, base: Prefix, e: Prefix, a: Bits)
    requires Is6(base) && Canonical(base) && Valid(e) && Overlaps(e, base) && UsedUp(Shared(e, base), excluded, base)
    requires Covers(e, a) && Covers(base, a)
    ensures Excluded(Relevant(excluded, base), a)
  {
    SharedIsInBoth(e, base, a);
    if !Excluded(Relevant(excluded, base), a) {
      var host, m := Prefix(a, |a|), Shared(e, base);
      assert forall x: Bits :: Covers(host, x) ==> x == a;
      FreeIffNoAddressExcluded(host, Relevant(excluded, base));
      var p := Ascend(host, m, Relevant(excluded, base));
    }
  }

  const MAPPED_ALL := Prefix(seq(128, i => 80 <= i < 96), 0)
  const GLOBAL6 := Prefix(seq(128, i => i == 2), 3)

  /** The base 2000::/3 less ::ffff:0:0/0, which excludes every address: all of it is left. */
  lemma MappedExclusionIsIgnored()
    ensures Canonical(GLOBAL6) && Skipped(MAPPED_ALL) && Relevant([MAPPED_ALL], GLOBAL6) == []
    ensures Complements([GLOBAL6], GLOBAL6, Relevant([MAPPED_ALL], GLOBAL6))
    ensures forall a: Bits :: Covers(GLOBAL6, a) ==> Excluded([MAPPED_ALL], a)
  {
    assert MAPPED_ALL in [MAPPED_ALL];
    assert [MAPPED_ALL][1..] == [];
    assert Inside(GLOBAL6, GLOBAL6);
  }

  /** The list covers exactly the addresses of the base that no exclusion contains. */
  ghost predicate CoversTheRest(ps: seq<Prefix>, base: Prefix, excluded: seq<Prefix>)
    requires Valid(base)
  {
    forall a: Bits :: CoveredBy(ps, a) <==> Covers(base, a) && !Excluded(excluded, a)
  }

  lemma ComplementCoversTheRest(ps: seq<Prefix>, base: Prefix, excluded: seq<Prefix>, others: seq<Prefix>)
    requires Canonical(base) && AllValid(excluded) && Complements(ps, base, excluded) && SameExcluded(excluded, others, base)
    ensures CoversTheRest(ps, base, others)
  {
    forall a: Bits ensures CoveredBy(ps, a) <==> Covers(base, a) && !Excluded(others, a) {
      ComplementCoversExactly(ps, base, excluded, a);
    }
  }

  /** Size and minimality, said of the arguments themselves. */
  lemma ArgumentsMeasured(ps: seq<Prefix>, base: Prefix, excluded: seq<Prefix>, others: seq<Prefix>, cover: set<Prefix>)
    requires Canonical(base) && AllValid(excluded) && Complements(ps, base, excluded) && SameExcluded(excluded, others, base)
    ensures TotalSize(ps) == |set a | a in AddressesOf(base) && !Excluded(others, a)|
    ensures CoversAllowed(cover, base, others) ==> |ps| <= |cover|
  {
    ComplementSize(ps, base, excluded);
    var allowed := set a | a in AddressesOf(base) && !Excluded(excluded, a);
    forall a | a in AddressesOf(base) ensures Excluded(excluded, a) <==> Excluded(others, a) { AddressesAreCovered(base, a); }
    assert allowed == set a | a in AddressesOf(base) && !Excluded(others, a);
    if CoversAllowed(cover, base, others) {
      forall a: Bits ensures Allowed(base, excluded, a) <==> Allowed(base, others, a) {}
      ComplementIsMinimal(ps, base, excluded, cover);
    }
  }

  // ---- The two functions ----

  /** The maximal prefixes of the base outside the considered exclusions, each once, in order. */
  ghost predicate IsResult(ps: seq<Prefix>, base: Prefix, excluded: seq<Prefix>, before: (Prefix, Prefix) -> bool)
    requires Canonical(base)
  {
    Complements(ps, base, Relevant(excluded, base)) && StrictlySorted(ps, before)
  }

  const ALL4 := Prefix(seq(32, i => false), 0)

  /** The result for other arguments is the same whenever these exclude the same addresses. */
  method ComplementIPv4(excluded: seq<Prefix>) returns (sorted: seq<Prefix>)
    ensures IsResult(sorted, ALL4, excluded, NumericBefore)
    ensures CoversTheRest(sorted, ALL4, excluded)
    ensures TotalSize(sorted) == |set a | a in AddressesOf(ALL4) && !Excluded(excluded, a)|
    ensures forall cover :: CoversAllowed(cover, ALL4, excluded) ==> |sorted| <= |cover|
    ensures forall others, ps {:trigger IsResult(ps, ALL4, others, NumericBefore)} ::
              SameExcluded(excluded, others, ALL4) && IsResult(ps, ALL4, others, NumericBefore) ==> ps == sorted
  {
    var remaining := ComplementUnsorted(ALL4, excluded);
    NumericIsStrict(32);
    SortedComplements(remaining, ALL4, Relevant(excluded, ALL4), NumericBefore);
    sorted := Sort(remaining, NumericBefore);
    RelevantIsAll4(excluded, ALL4);
    ComplementCoversTheRest(sorted, ALL4, Relevant(excluded, ALL4), excluded);
    forall cover ensures CoversAllowed(cover, ALL4, excluded) ==> |sorted| <= |cover| {
      ArgumentsMeasured(sorted, ALL4, Relevant(excluded, ALL4), excluded, cover);
    }
    ArgumentsMeasured(sorted, ALL4, Relevant(excluded, ALL4), excluded, {});
    forall others, ps {:trigger IsResult(ps, ALL4, others, NumericBefore)} |
      SameExcluded(excluded, others, ALL4) && IsResult(ps, ALL4, others, NumericBefore)
      ensures ps == sorted
    {
      RelevantIsAll4(others, ALL4);
      ResultIgnoresOrderAndRepetition(ps, sorted, ALL4, Relevant(others, ALL4), Relevant(excluded, ALL4), NumericBefore);
    }
  }

  /** `textBefore` is the order of the prefixes' text forms, which the source sorts by. */
  method ComplementIPv6From(base: Prefix, excluded: seq<Prefix>, textBefore: (Prefix, Prefix) -> bool) returns (sorted: seq<Prefix>)
    requires Canonical(base) && Is6(base) && StrictOrder(textBefore, 128)
    ensures IsResult(sorted, base, excluded, textBefore)
    ensures CoversTheRest(sorted, base, excluded)
       <==> forall e :: e in excluded && Skipped(e) && Overlaps(e, base) ==> UsedUp(Shared(e, base), excluded, base)
    ensures CoversTheRest(sorted, base, excluded) ==>
              && TotalSize(sorted) == |set a | a in AddressesOf(base) && !Excluded(excluded, a)|
              && forall cover :: CoversAllowed(cover, base, excluded) ==> |sorted| <= |cover|
    ensures forall others, ps {:trigger IsResult(ps, base, others, textBefore)} ::
              SameExcluded(Relevant(excluded, base), Relevant(others, base), base) && IsResult(ps, base, others, textBefore) ==> ps == sorted
  {
    var remaining := ComplementUnsorted(base, excluded);
    SortedComplements(remaining, base, Relevant(excluded, base), textBefore);
    sorted := Sort(remaining, textBefore);
    CoversTheRest6(sorted, base, excluded);
    if CoversTheRest(sorted, base, excluded) {
      ArgumentsMeasured(sorted, base, Relevant(excluded, base), excluded, {});
      forall cover ensures CoversAllowed(cover, base, excluded) ==> |sorted| <= |cover| {
        ArgumentsMeasured(sorted, base, Relevant(excluded, base), excluded, cover);
      }
    }
    forall others, ps {:trigger IsResult(ps, base, others, textBefore)} |
      SameExcluded(Relevant(excluded, base), Relevant(others, base), base) && IsResult(ps, base, others, textBefore)
      ensures ps == sorted
    {
      ResultIgnoresOrderAndRepetition(sorted, ps, base, Relevant(excluded, base), Relevant(others, base), textBefore);
    }
  }

  lemma CoversTheRest6(ps: seq<Prefix>, base: Prefix, excluded: seq<Prefix>)
    requires Canonical(base) && Is6(base) && Complements(ps, base, Relevant(excluded, base))
    ensures CoversTheRest(ps, base, excluded) <==> SameExcluded(Relevant(excluded, base), excluded, base)
    ensures CoversTheRest(ps, base, excluded)
       <==> forall e :: e in excluded && Skipped(e) && Overlaps(e, base) ==> UsedUp(Shared(e, base), excluded, base)
  {
    RelevantIsAll6Iff(excluded, base);
    if SameExcluded(Relevant(excluded, base), excluded, base) {
      ComplementCoversTheRest(ps, base, Relevant(excluded, base), excluded);
    }
    if CoversTheRest(ps, base, excluded) {
      forall a: Bits | Covers(base, a) ensures Excluded(Relevant(excluded, base), a) <==> Excluded(excluded, a) {
        ComplementCoversExactly(ps, base, Relevant(excluded, base), a);
        assert CoveredBy(ps, a) <==> Covers(base, a) && !Excluded(excluded, a);
      }
    }
  }

  // ---- The arithmetic of the source ----

  /** Bit k of n. */
  predicate BitOf(n: nat, k: nat) { if k == 0 then n % 2 == 1 else BitOf(n / 2, k - 1) }

  /** n | 1 << k. */
  function OrBit(n: nat, k: nat): nat { if BitOf(n, k) then n else n + Pow2(k) }

  /** Setting entry i of an address is setting the bit of that weight in its value. */
  lemma {:induction false} SettingIsOr(a: Bits, i: nat)
    requires i < |a|
    ensures Number(a[i := true]) == OrBit(Number(a), |a| - 1 - i)
  {
    var front, b := a[..|a| - 1], if a[|a| - 1] then 1 else 0;
    assert Number(a) == 2 * Number(front) + b;
    if i == |a| - 1 {
      assert a[i := true][..|a| - 1] == front;
      assert BitOf(Number(a), 0) <==> b == 1;
    } else {
      SettingIsOr(front, i);
      assert a[i := true][..|a| - 1] == front[i := true];
      var k := |a| - 1 - i;
      assert Number(a) / 2 == Number(front);
    }
  }

  /** The IPv4 subtraction's second half has the word `address | 1 << (32 - childBits)`. */
  lemma HighHalfIsOr4(p: Prefix)
    requires Canonical(p) && Is4(p) && p.bits < 32
    ensures Number(HighHalf(p).addr) == OrBit(Number(p.addr), 32 - (p.bits + 1))
  {
    SettingIsOr(p.addr, p.bits);
  }

  function ByteAt(a: Bits, j: nat): nat
    requires 8 * j + 8 <= |a|
  {
    Number(a[8 * j..8 * j + 8])
  }

  /** The IPv6 subtraction's second half differs in the byte `newBit / 8`, by the bit of weight
      `7 - newBit % 8`. */
  lemma HighHalfIsOr6(p: Prefix, j: nat)
    requires Canonical(p) && Is6(p) && p.bits < 128 && j < 16
    ensures ByteAt(HighHalf(p).addr, j) == if j == p.bits / 8 then OrBit(ByteAt(p.addr, j), 7 - p.bits % 8) else ByteAt(p.addr, j)
  {
    var part := p.addr[8 * j..8 * j + 8];
    if j == p.bits / 8 {
      SettingIsOr(part, p.bits % 8);
      assert HighHalf(p).addr[8 * j..8 * j + 8] == part[p.bits % 8 := true];
    } else {
      assert HighHalf(p).addr[8 * j..8 * j + 8] == part;
    }
  }

  // ---- Firewall normalization ----

  /** ::/0. */
  predicate IsAll6(p: Prefix) { Is6(p) && p.bits == 0 && Canonical(p) }

  /** ::/0 becomes ::/1 and 8000::/1. */
  function Split(p: Prefix): seq<Prefix> {
    if IsAll6(p) then [LowHalf(p), HighHalf(p)] else [p]
  }

  predicate CoveredBy(ps: seq<Prefix>, a: Bits) {
    exists p :: p in ps && Valid(p) && Covers(p, a)
  }

  lemma SplitCoversTheSame(p: Prefix, a: Bits)
    ensures CoveredBy(Split(p), a) <==> CoveredBy([p], a)
  {
    if IsAll6(p) {
      assert p in [p];
      var low, high := LowHalf(p), HighHalf(p);
      assert low in Split(p) && high in Split(p);
      if |a| == 128 {
        assert a[..1] == [a[0]] && high.addr[..1] == [true] && low.addr[..1] == [false];
        assert Covers(p, a);
        assert if a[0] then Covers(high, a) else Covers(low, a);
      }
    }
  }

  /** normalizeWindowsFirewallPrefixes: no whole-family IPv6 prefix, no repetition, the same
      addresses. */
  method NormalizeFirewallPrefixes(values: seq<Prefix>) returns (result: seq<Prefix>)
    ensures forall p :: p in result ==> !IsAll6(p)
    ensures forall i, j :: 0 <= i < j < |result| ==> result[i] != result[j]
    ensures forall p :: p in result <==> exists v :: v in values && p in Split(v)
    ensures forall a: Bits :: CoveredBy(result, a) <==> CoveredBy(values, a)
  {
    result := [];
    var seen: set<Prefix> := {};
    for i := 0 to |values|
      invariant forall p :: p in seen <==> p in result
      invariant forall j, k :: 0 <= j < k < |result| ==> result[j] != result[k]
      invariant forall p :: p in result <==> exists j :: 0 <= j < i && p in Split(values[j])
    {
      var parts := Split(values[i]);
      for n := 0 to |parts|
        invariant forall p :: p in seen <==> p in result
        invariant forall j, k :: 0 <= j < k < |result| ==> result[j] != result[k]
        invariant forall p :: p in result <==> p in parts[..n] || exists j :: 0 <= j < i && p in Split(values[j])
      {
        if parts[n] !in seen {
          seen := seen + {parts[n]};
          result := result + [parts[n]];
        }
      }
    }
    forall a: Bits ensures CoveredBy(result, a) <==> CoveredBy(values, a) {
      if p :| p in result && Valid(p) && Covers(p, a) {
        var v :| v in values && p in Split(v);
        assert CoveredBy(Split(v), a);
        SplitCoversTheSame(v, a);
      }
      if v :| v in values && Valid(v) && Covers(v, a) {
        assert v in [v];
        SplitCoversTheSame(v, a);
        var p :| p in Split(v) && Valid(p) && Covers(p, a);
        assert p in result;
      }
    }
  }
}
