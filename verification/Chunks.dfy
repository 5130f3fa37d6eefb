/** Cutting a range of items into groups of `c`: block groups and inode groups of a volume, and the
    spans below the slots of a pointer block. Products and quotients are counted off group by group,
    and tied to the driver's `*`, `/` and `%` by StartIsProduct, GroupCount and AtIsDivMod. */
module Chunks {

  /** First item of group `g`. */
  function Start(c: nat, g: nat): nat {
    if g == 0 then 0 else Start(c, g - 1) + c
  }

  function GroupsFor(n: nat, c: nat): nat
    requires c > 0
  {
    if n == 0 then 0 else if n <= c then 1 else 1 + GroupsFor(n - c, c)
  }

  function Share(n: nat, c: nat, g: nat): (s: nat)
    ensures s <= c
  {
    if Start(c, g) + c <= n then c else if Start(c, g) <= n then n - Start(c, g) else 0
  }

  lemma {:induction false} StartIsProduct(c: nat, g: nat)
    ensures Start(c, g) == g * c
  {
    if g > 0 { StartIsProduct(c, g - 1); }
  }

  lemma {:induction false} StartMono(c: nat, g: nat, h: nat)
    requires g < h
    ensures Start(c, g) + c <= Start(c, h)
    decreases h
  {
    if g < h - 1 { StartMono(c, g, h - 1); }
  }

  lemma {:induction false} StartInside(n: nat, c: nat, g: nat)
    requires c > 0 && g < GroupsFor(n, c)
    ensures Start(c, g) < n
    decreases n
  {
    if n > c && g > 0 { StartInside(n - c, c, g - 1); }
  }

  lemma {:induction false} GroupsCover(n: nat, c: nat)
    requires c > 0
    ensures n <= Start(c, GroupsFor(n, c)) && Start(c, GroupsFor(n, c)) < n + c
  {
    if n > c { GroupsCover(n - c, c); }
  }

  /** group_count's closed form. */
  lemma GroupCount(n: nat, c: nat)
    requires c > 0
    ensures GroupsFor(n, c) == (n + c - 1) / c
  {
    GroupsCover(n, c);
    StartIsProduct(c, GroupsFor(n, c));
    Quotient(GroupsFor(n, c), n + c - 1 - Start(c, GroupsFor(n, c)), c);
  }

  /** Group and position of an item, and back. */
  lemma Quotient(q: nat, r: nat, c: nat)
    requires r < c
    ensures (q * c + r) / c == q && (q * c + r) % c == r
  {
    var x := q * c + r;
    var p := x / c;
    assert x == p * c + x % c;
    assert p > q ==> p * c >= (q + 1) * c;
    assert p < q ==> (p + 1) * c <= q * c;
  }

  /** Group and bit of item `x`: its quotient and remainder, counted off group by group. */
  function GroupAt(c: nat, x: nat): nat
    requires c > 0
  {
    if x < c then 0 else 1 + GroupAt(c, x - c)
  }

  function BitAt(c: nat, x: nat): (i: nat)
    requires c > 0
    ensures i < c
  {
    if x < c then x else BitAt(c, x - c)
  }

  lemma {:induction false} Recombine(c: nat, x: nat)
    requires c > 0
    ensures Start(c, GroupAt(c, x)) + BitAt(c, x) == x
  {
    if x >= c { Recombine(c, x - c); }
  }

  lemma AtIsDivMod(c: nat, x: nat)
    requires c > 0
    ensures GroupAt(c, x) == x / c && BitAt(c, x) == x % c
  {
    Recombine(c, x);
    StartIsProduct(c, GroupAt(c, x));
    Quotient(GroupAt(c, x), BitAt(c, x), c);
  }

  /** The item behind bit `i` of group `g` is found again in that group at that bit. */
  lemma {:induction false} Position(c: nat, g: nat, i: nat)
    requires c > 0 && i < c
    ensures GroupAt(c, Start(c, g) + i) == g && BitAt(c, Start(c, g) + i) == i
  {
    if g > 0 { Position(c, g - 1, i); }
  }

  lemma Located(n: nat, c: nat, groups: nat, x: nat)
    requires c > 0 && x < n && n <= Start(c, groups)
    ensures GroupAt(c, x) < groups && BitAt(c, x) < Share(n, c, GroupAt(c, x))
  {
    Recombine(c, x);
    if groups < GroupAt(c, x) { StartMono(c, groups, GroupAt(c, x)); }
  }
}
