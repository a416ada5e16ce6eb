/** The order in which resolved addresses are tried: families alternate (section 4 of RFC 8305). */
module Interleaving {
  import opened Tokens

  datatype Address = Address(family: int, host: seq<byte>)

  /** The addresses of `family` if `mine`, else all the others; in order. */
  function Part(addresses: seq<Address>, family: int, mine: bool): seq<Address> {
    if addresses == [] then []
    else
      var last, others := addresses[|addresses| - 1], Part(addresses[..|addresses| - 1], family, mine);
      if (last.family == family) == mine then others + [last] else others
  }

  /** One of `first`, one of `second`, and so on; then what is left of the longer. */
  function Woven(first: seq<Address>, second: seq<Address>): seq<Address>
    decreases |first| + |second|
  {
    if first == [] then second else [first[0]] + Woven(second, first[1..])
  }

  function Interleaved(addresses: seq<Address>): seq<Address> {
    if addresses == [] then []
    else Woven(Part(addresses, addresses[0].family, true), Part(addresses, addresses[0].family, false))
  }

  method InterleaveByFamily(candidates: seq<Address>) returns (ordered: seq<Address>)
    ensures ordered == Interleaved(candidates)
  {
    var primary, secondary := [], [];
    if candidates == [] {
      return [];
    }
    var preferred := candidates[0].family;
    for i := 0 to |candidates|
      invariant primary == Part(candidates[..i], preferred, true)
      invariant secondary == Part(candidates[..i], preferred, false)
    {
      assert candidates[..i + 1][..i] == candidates[..i];
      if candidates[i].family == preferred {
        primary := primary + [candidates[i]];
      } else {
        secondary := secondary + [candidates[i]];
      }
    }
    assert candidates[..|candidates|] == candidates;
    ordered := Weave(primary, secondary);
  }

  method Weave(primary: seq<Address>, secondary: seq<Address>) returns (ordered: seq<Address>)
    ensures ordered == Woven(primary, secondary)
  {
    ordered := [];
    var first, second := 0, 0;
    while first < |primary| || second < |secondary|
      invariant first <= |primary| && second <= |secondary|
      invariant Woven(primary, secondary) == ordered + Woven(primary[first..], secondary[second..])
      decreases |primary| - first + |secondary| - second
    {
      WeaveStep(ordered, primary, secondary, first, second);
      if first < |primary| {
        ordered := ordered + [primary[first]];
        first := first + 1;
      }
      if second < |secondary| {
        ordered := ordered + [secondary[second]];
        second := second + 1;
      }
    }
  }

  /** One turn of the weaving loop. */
  lemma WeaveStep(ordered: seq<Address>, primary: seq<Address>, secondary: seq<Address>, first: nat, second: nat)
    requires first <= |primary| && second <= |secondary|
    ensures var p, q := first < |primary|, second < |secondary|;
      var more := ordered + (if p then [primary[first]] else []);
      var most := if q then more + [secondary[second]] else more;
      ordered + Woven(primary[first..], secondary[second..])
      == most + Woven(primary[if p then first + 1 else first..], secondary[if q then second + 1 else second..])
  {
    var p, s := primary[first..], secondary[second..];
    WovenStep(p, s);
    assert p != [] ==> p[1..] == primary[first + 1..];
    assert s != [] ==> s[1..] == secondary[second + 1..];
  }

  lemma WovenStep(first: seq<Address>, second: seq<Address>)
    ensures first != [] && second != [] ==> Woven(first, second) == [first[0], second[0]] + Woven(first[1..], second[1..])
    ensures first == [] && second != [] ==> Woven(first, second) == [second[0]] + Woven(first, second[1..])
    ensures first != [] && second == [] ==> Woven(first, second) == [first[0]] + Woven(first[1..], second)
  {
    if first != [] && second != [] {
      WovenPair(first, second, Woven(first[1..], second[1..]));
    } else {
      WovenWithNone(first);
      if first != [] { WovenWithNone(first[1..]); }
    }
  }

  lemma WovenPair(first: seq<Address>, second: seq<Address>, rest: seq<Address>)
    requires first != [] && second != [] && rest == Woven(first[1..], second[1..])
    ensures Woven(first, second) == [first[0], second[0]] + rest
  {
    assert Woven(second, first[1..]) == [second[0]] + rest;
  }

  lemma WovenWithNone(first: seq<Address>)
    ensures Woven(first, []) == first
  {
    if first != [] { assert Woven([], first[1..]) == first[1..]; }
  }

  // ---- What the order means ----

  predicate SameSide(a: Address, b: Address, family: int) {
    (a.family == family) == (b.family == family)
  }

  /** Neighbours are on different sides until one side is used up. */
  ghost predicate Alternates(ordered: seq<Address>, family: int) {
    forall i, j :: 0 <= i && i + 1 < j < |ordered| && SameSide(ordered[i], ordered[i + 1], family) ==>
      SameSide(ordered[i], ordered[j], family)
  }

  /** `ordered` keeps both sides complete and in order, alternates, and starts with side `mine` if it can. */
  ghost predicate Weaves(ordered: seq<Address>, first: seq<Address>, second: seq<Address>, family: int, mine: bool) {
    && Part(ordered, family, mine) == first && Part(ordered, family, !mine) == second
    && Alternates(ordered, family)
    && (first != [] ==> ordered != [] && (ordered[0].family == family) == mine)
  }

  lemma {:induction false} PartCons(a: Address, rest: seq<Address>, family: int, mine: bool)
    ensures Part([a] + rest, family, mine)
         == (if (a.family == family) == mine then [a] else []) + Part(rest, family, mine)
  {
    if rest == [] {
      assert [a] + rest == [a];
    } else {
      PartCons(a, rest[..|rest| - 1], family, mine);
      assert ([a] + rest)[..|rest|] == [a] + rest[..|rest| - 1];
    }
  }

  ghost predicate OnSide(side: seq<Address>, family: int, mine: bool) {
    forall i :: 0 <= i < |side| ==> (side[i].family == family) == mine
  }

  lemma {:induction false} PartOfOneSide(side: seq<Address>, family: int, mine: bool)
    requires OnSide(side, family, mine)
    ensures Part(side, family, mine) == side && Part(side, family, !mine) == []
  {
    if side != [] {
      PartOfOneSide(side[..|side| - 1], family, mine);
    }
  }

  lemma {:induction false} PartIsOneSided(addresses: seq<Address>, family: int, mine: bool)
    ensures OnSide(Part(addresses, family, mine), family, mine)
  {
    if addresses != [] {
      PartIsOneSided(addresses[..|addresses| - 1], family, mine);
    }
  }

  /** Dropping the first address of an order that alternates leaves one that does. */
  lemma AlternatesTail(a: Address, rest: seq<Address>, family: int)
    requires Alternates([a] + rest, family)
    ensures Alternates(rest, family)
  {
    var all := [a] + rest;
    forall i, j | 0 <= i && i + 1 < j < |rest| && SameSide(rest[i], rest[i + 1], family)
      ensures SameSide(rest[i], rest[j], family)
    {
      assert all[i + 1] == rest[i] && all[i + 1 + 1] == rest[i + 1] && all[j + 1] == rest[j];
    }
  }

  lemma {:induction false} WovenWeaves(first: seq<Address>, second: seq<Address>, family: int, mine: bool)
    requires OnSide(first, family, mine) && OnSide(second, family, !mine)
    ensures Weaves(Woven(first, second), first, second, family, mine)
    decreases |first| + |second|
  {
    if first == [] {
      PartOfOneSide(second, family, !mine);
    } else {
      WovenWeaves(second, first[1..], family, !mine);
      WeavesCons(Woven(second, first[1..]), second, first, family, mine);
    }
  }

  /** Putting one more address of the side that is not next in front of a weaving. */
  lemma WeavesCons(rest: seq<Address>, second: seq<Address>, first: seq<Address>, family: int, mine: bool)
    requires first != [] && (first[0].family == family) == mine && Weaves(rest, second, first[1..], family, !mine)
    ensures Weaves([first[0]] + rest, first, second, family, mine)
  {
    PartCons(first[0], rest, family, mine);
    PartCons(first[0], rest, family, !mine);
    AlternatesCons(first[0], rest, second, family, mine);
  }

  lemma AlternatesCons(a: Address, rest: seq<Address>, second: seq<Address>, family: int, mine: bool)
    requires Alternates(rest, family) && (a.family == family) == mine && Part(rest, family, !mine) == second
    requires second != [] ==> rest != [] && (rest[0].family == family) == !mine
    ensures Alternates([a] + rest, family)
  {
    var all := [a] + rest;
    if second == [] {
      AllOnOneSide(rest, family, mine);
    }
    forall i, j | 0 <= i && i + 1 < j < |all| && SameSide(all[i], all[i + 1], family)
      ensures SameSide(all[i], all[j], family)
    {
      if i > 0 {
        assert SameSide(rest[i - 1], rest[i - 1 + 1], family);
      }
    }
  }

  lemma {:induction false} AllOnOneSide(rest: seq<Address>, family: int, mine: bool)
    requires Part(rest, family, !mine) == []
    ensures OnSide(rest, family, mine)
  {
    if rest != [] {
      AllOnOneSide(rest[..|rest| - 1], family, mine);
    }
  }

  lemma {:induction false} WeavingIsUnique(ordered: seq<Address>, first: seq<Address>, second: seq<Address>, family: int, mine: bool)
    requires Weaves(ordered, first, second, family, mine)
    ensures ordered == Woven(first, second)
    decreases |first| + |second|
  {
    if first == [] {
      OneSided(ordered, family, mine);
    } else {
      var a, rest := ordered[0], ordered[1..];
      assert ordered == [a] + rest;
      PartCons(a, rest, family, mine);
      PartCons(a, rest, family, !mine);
      AlternatesTail(a, rest, family);
      if second != [] {
        OtherSideIsNext(a, rest, second, family, mine);
      }
      WeavingIsUnique(rest, second, first[1..], family, !mine);
    }
  }

  lemma {:induction false} OneSided(ordered: seq<Address>, family: int, mine: bool)
    requires Part(ordered, family, mine) == []
    ensures Part(ordered, family, !mine) == ordered
  {
    if ordered != [] {
      OneSided(ordered[..|ordered| - 1], family, mine);
    }
  }

  /** While the other side is not used up, it comes next. */
  lemma OtherSideIsNext(a: Address, rest: seq<Address>, second: seq<Address>, family: int, mine: bool)
    requires Alternates([a] + rest, family) && (a.family == family) == mine
    requires Part(rest, family, !mine) == second && second != []
    ensures rest != [] && (rest[0].family == family) == !mine
  {
    if rest != [] && (rest[0].family == family) == mine {
      var all := [a] + rest;
      forall k | 0 <= k < |rest|
        ensures (rest[k].family == family) == mine
      {
        assert SameSide(all[0], all[0 + 1], family) && all[k + 1] == rest[k];
      }
      PartOfOneSide(rest, family, mine);
    }
  }

  lemma {:induction false} SidesMakeWhole(addresses: seq<Address>, family: int)
    ensures multiset(Part(addresses, family, true)) + multiset(Part(addresses, family, false)) == multiset(addresses)
  {
    if addresses != [] {
      var front, last := addresses[..|addresses| - 1], addresses[|addresses| - 1];
      SidesMakeWhole(front, family);
      assert addresses == front + [last];
      assert multiset(addresses) == multiset(front) + multiset([last]);
    }
  }

  /** An order is the one computed if and only if it keeps the order within the first address's family and
      among all the others, alternates between the two until one is used up, and starts with that family. */
  lemma InterleavingIsTheFairOrder(addresses: seq<Address>, ordered: seq<Address>)
    requires addresses != []
    ensures var f := addresses[0].family;
      ordered == Interleaved(addresses) <==> Weaves(ordered, Part(addresses, f, true), Part(addresses, f, false), f, true)
  {
    var f := addresses[0].family;
    PartIsOneSided(addresses, f, true);
    PartIsOneSided(addresses, f, false);
    WovenWeaves(Part(addresses, f, true), Part(addresses, f, false), f, true);
    if Weaves(ordered, Part(addresses, f, true), Part(addresses, f, false), f, true) {
      WeavingIsUnique(ordered, Part(addresses, f, true), Part(addresses, f, false), f, true);
    }
  }

  /** Every address is tried as often as it was resolved, and the resolver's first choice is tried first. */
  lemma InterleavingPermutes(addresses: seq<Address>)
    ensures multiset(Interleaved(addresses)) == multiset(addresses)
    ensures addresses != [] ==> Interleaved(addresses) != [] && Interleaved(addresses)[0] == addresses[0]
  {
    if addresses != [] {
      var f := addresses[0].family;
      InterleavingIsTheFairOrder(addresses, Interleaved(addresses));
      SidesMakeWhole(addresses, f);
      SidesMakeWhole(Interleaved(addresses), f);
      PartKeepsFirst(addresses, f);
    }
  }

  lemma PartKeepsFirst(addresses: seq<Address>, family: int)
    requires addresses != [] && addresses[0].family == family
    ensures Part(addresses, family, true) != [] && Part(addresses, family, true)[0] == addresses[0]
  {
    assert addresses == [addresses[0]] + addresses[1..];
    PartCons(addresses[0], addresses[1..], family, true);
  }

  // ---- Families rather than sides ----

  /** Neighbours are of different families until one family is left. */
  ghost predicate FamiliesAlternate(ordered: seq<Address>) {
    forall i, j :: 0 <= i && i + 1 < j < |ordered| && ordered[i].family == ordered[i + 1].family ==>
      ordered[i].family == ordered[j].family
  }

  ghost predicate OfTwoFamilies(addresses: seq<Address>, f: int, g: int) {
    forall i :: 0 <= i < |addresses| ==> addresses[i].family == f || addresses[i].family == g
  }

  lemma SidesAreFamilies(ordered: seq<Address>, f: int, g: int)
    requires Alternates(ordered, f) && OfTwoFamilies(ordered, f, g)
    ensures FamiliesAlternate(ordered)
  {
    forall i, j | 0 <= i && i + 1 < j < |ordered| && ordered[i].family == ordered[i + 1].family
      ensures ordered[i].family == ordered[j].family
    {
      assert SameSide(ordered[i], ordered[i + 1], f);
    }
  }

  lemma SameAddresses(some: seq<Address>, others: seq<Address>, f: int, g: int)
    requires multiset(some) == multiset(others) && OfTwoFamilies(some, f, g)
    ensures OfTwoFamilies(others, f, g)
  {
    forall i | 0 <= i < |others| ensures others[i].family == f || others[i].family == g {
      assert others[i] in multiset(some);
    }
  }

  /** With addresses of at most two families, it is the families that alternate. */
  lemma TwoFamiliesAlternate(addresses: seq<Address>, other: int)
    requires addresses != [] && OfTwoFamilies(addresses, addresses[0].family, other)
    ensures FamiliesAlternate(Interleaved(addresses))
  {
    var f, ordered := addresses[0].family, Interleaved(addresses);
    InterleavingIsTheFairOrder(addresses, ordered);
    InterleavingPermutes(addresses);
    SameAddresses(addresses, ordered, f, other);
    SidesAreFamilies(ordered, f, other);
  }

  /** With any three it need not be: two neighbours share a family while another is still to come. */
  lemma ThreeFamiliesMayRepeat(f: int, g: int, h: int, host: seq<byte>)
    requires f != g && g != h && h != f
    ensures var addresses := [Address(f, host), Address(g, host), Address(g, host), Address(h, host)];
      Interleaved(addresses) == addresses && !FamiliesAlternate(addresses)
  {
    var a, b, c := Address(f, host), Address(g, host), Address(h, host);
    var addresses, rest := [a, b, b, c], [b, b, c];
    assert addresses == [a] + rest;
    PartOfOneSide(rest, f, false);
    PartCons(a, rest, f, true);
    PartCons(a, rest, f, false);
    assert Part(addresses, f, true) == [a] && Part(addresses, f, false) == rest;
    WovenWithNone(rest);
    assert [a][1..] == [];
    assert Woven([a], rest) == [a] + rest;
    assert Interleaved(addresses) == addresses;
    var i, j := 1, 3;
    assert addresses[i].family == addresses[i + 1].family && addresses[i].family != addresses[j].family;
  }

  /** An address in front, of another family than the next, changes nothing. */
  lemma AlternateCons(a: Address, rest: seq<Address>)
    requires rest == [] || rest[0].family != a.family
    ensures FamiliesAlternate([a] + rest) <==> FamiliesAlternate(rest)
  {
    var all := [a] + rest;
    if FamiliesAlternate(all) {
      forall i, j | 0 <= i && i + 1 < j < |rest| && rest[i].family == rest[i + 1].family
        ensures rest[i].family == rest[j].family
      {
        assert all[i + 1] == rest[i] && all[i + 1 + 1] == rest[i + 1] && all[j + 1] == rest[j];
      }
    }
    if FamiliesAlternate(rest) {
      forall i, j | 0 <= i && i + 1 < j < |all| && all[i].family == all[i + 1].family
        ensures all[i].family == all[j].family
      {
        assert i > 0 && rest[i - 1].family == rest[i - 1 + 1].family;
      }
    }
  }

  lemma OneFamilyAlternates(side: seq<Address>, family: int)
    requires OnSide(side, family, true)
    ensures FamiliesAlternate(side)
  {
  }

  /** What is left of the other addresses where the first family is used up, the last one woven included. */
  function Surplus(first: seq<Address>, others: seq<Address>): seq<Address> {
    if 0 < |first| < |others| then others[|first| - 1..] else []
  }

  /** Weaving the addresses of one family with others: each of it but the last is followed by another family,
      so all depends on the surplus. */
  lemma {:induction false} WovenFamilies(first: seq<Address>, others: seq<Address>, family: int)
    requires first != [] && OnSide(first, family, true) && OnSide(others, family, false)
    ensures FamiliesAlternate(Woven(first, others)) <==> FamiliesAlternate(Surplus(first, others))
    decreases |first|
  {
    if others == [] {
      WovenWithNone(first);
      OneFamilyAlternates(first, family);
    } else if |first| == 1 {
      WovenWithNone(others);
      assert first[1..] == [] && others[0..] == others;
      AlternateCons(first[0], others);
    } else {
      var rest := Woven(first[1..], others[1..]);
      WovenFamilies(first[1..], others[1..], family);
      WovenPair(first, others, rest);
      assert rest[0] == first[1] && [first[0], others[0]] + rest == [first[0]] + ([others[0]] + rest);
      AlternateCons(others[0], rest);
      AlternateCons(first[0], [others[0]] + rest);
      assert |first| < |others| ==> others[1..][|first| - 2..] == others[|first| - 1..];
    }
  }

  /** Exactly when the families alternate: just when the surplus of the other families, if there is any,
      alternates by itself as the resolver ordered it. */
  lemma FamiliesAlternateExactly(addresses: seq<Address>)
    requires addresses != []
    ensures var f := addresses[0].family;
      FamiliesAlternate(Interleaved(addresses)) <==>
        FamiliesAlternate(Surplus(Part(addresses, f, true), Part(addresses, f, false)))
  {
    var f := addresses[0].family;
    PartKeepsFirst(addresses, f);
    PartIsOneSided(addresses, f, true);
    PartIsOneSided(addresses, f, false);
    WovenFamilies(Part(addresses, f, true), Part(addresses, f, false), f);
  }
}
