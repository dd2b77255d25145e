/**
  The in-place "juggling" rotation of go-abci-service/util: gcd(amount, n) cycles, each of which
  moves its elements one place along the cycle with a single temporary.
 */
module Rotation {
  import opened Divisibility

  /** What rotating to the left by `amount` places means, for any amount. */
  function Rotated<T>(s: seq<T>, amount: int): (r: seq<T>)
    ensures |r| == |s|
  {
    seq(|s|, i requires 0 <= i < |s| => s[(i + amount) % |s|])
  }

  /** The place d to the right of j, wrapped around. */
  function Next(j: int, d: int, n: int): int {
    if j + d >= n then j + d - n else j + d
  }

  // ---------- the cycles ----------

  /** The place that is s steps of size d away from i. */
  function Place(i: int, s: int, d: int, n: nat): int
    requires n > 0
  {
    (i + s * d) % n
  }

  /** The places the cycle of i visits, in order. */
  function Cycle(i: int, d: nat, n: nat): (c: seq<int>)
    requires 0 < d < n
    ensures Gcd(d, n) > 0 && |c| == n / Gcd(d, n)
  {
    GcdDivides(d, n);
    seq(n / Gcd(d, n), s => Place(i, s, d, n))
  }

  lemma PlaceNext(i: int, s: int, d: nat, n: nat)
    requires 0 < d < n
    ensures 0 <= Place(i, s, d, n) < n
    ensures Place(i, s + 1, d, n) == Next(Place(i, s, d, n), d, n)
  {
    var y := i + s * d;
    DivMod(y, n);
    assert (s + 1) * d == s * d + d;
    var q := y / n;
    assert (q + 1) * n == q * n + n;
    if y % n + d >= n {
      ModUnique(y + d, n, y % n + d - n, q + 1);
    } else {
      ModUnique(y + d, n, y % n + d, q);
    }
  }

  /** After n / gcd steps the cycle is back where it started ... */
  lemma PlaceReturns(i: int, d: nat, n: nat)
    requires 0 < d < n && 0 <= i < n
    ensures Gcd(d, n) > 0 && Place(i, n / Gcd(d, n), d, n) == i
  {
    GcdDivides(d, n);
    var g := Gcd(d, n);
    var l, e := n / g, d / g;
    DivMod(d, g);
    DivMod(n, g);
    assert l * (e * g) == e * (l * g);
    ModUnique(i + l * d, n, i, e);
  }

  /** ... and not before: two places of the cycle differ. */
  lemma PlacesDiffer(i: int, s: nat, t: nat, d: nat, n: nat)
    requires 0 < d < n && Gcd(d, n) > 0 && s < t < n / Gcd(d, n)
    ensures Place(i, s, d, n) != Place(i, t, d, n)
  {
    if Place(i, s, d, n) == Place(i, t, d, n) {
      var ys, yt := i + s * d, i + t * d;
      DivMod(ys, n);
      DivMod(yt, n);
      WholeTurns(i, s, t, d, n, ys / n, yt / n, ys % n);
      StepsDivide(t - s, yt / n - ys / n, d, n);
    }
  }

  lemma WholeTurns(i: int, s: int, t: int, d: int, n: int, p: int, q: int, r: int)
    requires i + s * d == p * n + r && i + t * d == q * n + r
    ensures (t - s) * d == (q - p) * n
  {
    Distribute(t, -s, d);
    Distribute(q, -p, n);
  }

  /** A number of steps that amounts to whole turns is a multiple of n / gcd. */
  lemma StepsDivide(s: int, k: int, d: nat, n: nat)
    requires 0 < d < n && Gcd(d, n) > 0 && s * d == k * n && s > 0
    ensures s >= n / Gcd(d, n)
  {
    GcdDivides(d, n);
    var g := Gcd(d, n);
    var l := n / g;
    var u, v := Bezout(d, n);
    DivMod(n, g);
    var w := u * k + s * v;
    TurnsAlgebra(s, k, d, n, g, l, u, v, w);
    MultipleAtLeast(s, w, l, g);
  }

  lemma TurnsAlgebra(s: int, k: int, d: int, n: int, g: int, l: int, u: int, v: int, w: int)
    requires s * d == k * n && u * d + v * n == g && n == l * g && w == u * k + s * v
    ensures s * g == (w * l) * g
  {
    Distribute(u * d, v * n, s);
    Reassociate(s, u, d);
    Reassociate(u, k, n);
    Reassociate(s, v, n);
    Distribute(u * k, s * v, n);
    Reassociate(w, l, g);
  }

  lemma MultipleAtLeast(s: int, w: int, l: nat, g: nat)
    requires s * g == (w * l) * g && g > 0 && s > 0
    ensures s >= l
  {
    Distribute(s - w * l, w * l, g);
    assert (s - w * l) * g == 0;
    assert s == w * l;
    if w <= 0 {
      MulMonotone(w, 0, l);
    } else {
      MulMonotone(1, w, l);
    }
  }

  /** A cycle stays in one residue class of the gcd ... */
  lemma PlaceResidue(i: int, s: int, d: nat, n: nat)
    requires 0 < d < n
    ensures Gcd(d, n) > 0 && Place(i, s, d, n) % Gcd(d, n) == i % Gcd(d, n)
  {
    GcdDivides(d, n);
    var g := Gcd(d, n);
    var y := i + s * d;
    DivMod(y, n);
    DivMod(d, g);
    DivMod(n, g);
    DivMod(i, g);
    var q, e, l := y / n, d / g, n / g;
    ResidueAlgebra(i / g, i % g, s, e, q, l, g, y % n);
    ModUnique(y % n, g, i % g, i / g + s * e - q * l);
  }

  lemma ResidueAlgebra(j: int, r: int, s: int, e: int, q: int, l: int, g: int, p: int)
    requires j * g + r + s * (e * g) == q * (l * g) + p
    ensures p == r + (j + s * e - q * l) * g
  {
    Reassociate(s, e, g);
    Reassociate(q, l, g);
    Distribute(j, s * e, g);
    Distribute(j + s * e, -(q * l), g);
  }

  /** ... and reaches all of it. */
  lemma PlaceCovers(i: int, x: int, d: nat, n: nat) returns (s: nat)
    requires 0 < d < n && 0 <= x < n && Gcd(d, n) > 0 && 0 <= i < Gcd(d, n) && x % Gcd(d, n) == i
    ensures s < n / Gcd(d, n) && Place(i, s, d, n) == x
  {
    GcdDivides(d, n);
    var g := Gcd(d, n);
    var l, e := n / g, d / g;
    DivMod(n, g);
    DivMod(d, g);
    DivMod(x, g);
    var q := x / g;
    var u, v := Bezout(d, n);
    s := (q * u) % l;
    var w := (q * u) / l;
    DivMod(q * u, l);
    CoverAlgebra(q, u, v, d, n, g, l, e, s, w);
    ModUnique(i + s * d, n, x, -(w * e + q * v));
  }

  lemma CoverAlgebra(q: int, u: int, v: int, d: int, n: int, g: int, l: int, e: int, s: int, w: int)
    requires u * d + v * n == g && n == l * g && d == e * g && q * u == w * l + s
    ensures q * g == s * d + (w * e + q * v) * n
    ensures q * g == s * d - (-(w * e + q * v)) * n
  {
    Distribute(u * d, v * n, q);
    Reassociate(q, u, d);
    Reassociate(q, v, n);
    Distribute(w * l, s, d);
    Reassociate(w, l, d);
    Reassociate(l, e, g);
    Reassociate(w, e, n);
    Distribute(w * e, q * v, n);
  }

  /** The cycle of i < gcd(d, n) runs once through the indices that are i modulo the gcd, each
      followed by the place d further on, and the last one by i. */
  lemma CycleStructure(i: int, d: nat, n: nat)
    requires 0 < d < n && Gcd(d, n) > 0 && 0 <= i < Gcd(d, n) <= n
    ensures IsCycle(Cycle(i, d, n), i, d, n)
    ensures forall x :: 0 <= x < n ==> (x in Cycle(i, d, n) <==> x % Gcd(d, n) == i)
  {
    var c := Cycle(i, d, n);
    CycleStart(i, d, n);
    forall s | 0 <= s < |c|
      ensures Follows(c, i, d, n, s) && 0 <= c[s] < n
    {
      CycleStep(i, s, d, n);
    }
    forall s, t | 0 <= s < t < |c|
      ensures c[s] != c[t]
    {
      PlacesDiffer(i, s, t, d, n);
    }
    forall x | 0 <= x < n
      ensures x in c <==> x % Gcd(d, n) == i
    {
      CycleMembers(i, x, d, n);
    }
  }

  lemma CycleStart(i: int, d: nat, n: nat)
    requires 0 < d < n && 0 <= i < n
    ensures Cycle(i, d, n) != [] && Cycle(i, d, n)[0] == i
  {
    GcdDivides(d, n);
    DivMod(n, Gcd(d, n));
    ModUnique(i, n, i, 0);
  }

  lemma CycleStep(i: int, s: nat, d: nat, n: nat)
    requires 0 < d < n && 0 <= i < n && s < |Cycle(i, d, n)|
    ensures Follows(Cycle(i, d, n), i, d, n, s)
  {
    PlaceNext(i, s, d, n);
    PlaceReturns(i, d, n);
  }

  lemma CycleMembers(i: int, x: int, d: nat, n: nat)
    requires 0 < d < n && Gcd(d, n) > 0 && 0 <= i < Gcd(d, n) && 0 <= x < n
    ensures x in Cycle(i, d, n) <==> x % Gcd(d, n) == i
  {
    var c := Cycle(i, d, n);
    if x in c {
      var s :| 0 <= s < |c| && c[s] == x;
      PlaceResidue(i, s, d, n);
      ModUnique(i, Gcd(d, n), i, 0);
    }
    if x % Gcd(d, n) == i {
      var s := PlaceCovers(i, x, d, n);
      assert c[s] == x;
    }
  }

  /** Place s of a cycle, and the place d further on: the next one, or the first again. */
  ghost predicate Follows(c: seq<int>, i: int, d: int, n: int, s: nat)
    requires s < |c|
  {
    0 <= c[s] < n && Next(c[s], d, n) == if s + 1 < |c| then c[s + 1] else i
  }

  ghost predicate IsCycle(c: seq<int>, i: int, d: int, n: int) {
    && c != [] && c[0] == i
    && (forall s :: 0 <= s < |c| ==> 0 <= c[s] < n)
    && (forall s :: 0 <= s < |c| ==> Follows(c, i, d, n, s))
    && (forall s, t :: 0 <= s < t < |c| ==> c[s] != c[t])
  }

  // ---------- the rotation ----------

  /** The first t places of a cycle have got their new elements, no others have. */
  ghost predicate PartMoved<T>(before: seq<T>, now: seq<T>, c: seq<int>, d: nat, t: nat) {
    && |now| == |before| && d < |before|
    && (forall s :: 0 <= s < |c| ==>
          0 <= c[s] < |before| && now[c[s]] == before[if s < t then Next(c[s], d, |before|) else c[s]])
    && (forall x :: 0 <= x < |before| && x !in c ==> now[x] == before[x])
  }

  /** Place t of the cycle gets the element from the place d further on. */
  lemma MovedOne<T>(before: seq<T>, now: seq<T>, c: seq<int>, i: int, d: nat, t: nat)
    requires PartMoved(before, now, c, d, t) && IsCycle(c, i, d, |before|) && t < |c|
    ensures 0 <= c[t] < |now| && 0 <= Next(c[t], d, |before|) < |before|
    ensures PartMoved(before, now[c[t] := before[Next(c[t], d, |before|)]], c, d, t + 1)
  {
    assert Follows(c, i, d, |before|, t);
  }

  /** Moves the elements of one cycle, each to the place d to the left of it. */
  method RotateCycle<T>(a: array<T>, i: nat, d: nat, ghost c: seq<int>)
    requires 0 < d < a.Length && i < a.Length && IsCycle(c, i, d, a.Length)
    modifies a
    ensures OneCycleMoved(old(a[..]), a[..], c, d)
  {
    var n := a.Length;
    ghost var before := a[..];
    var temp := a[i];
    var j := i;
    ghost var t := 0;
    while true
      invariant 0 <= t < |c| && j == c[t] && 0 <= j < n
      invariant PartMoved(before, a[..], c, d, t)
      decreases |c| - t
    {
      var k := j + d;
      if k >= n {
        k := k - n;
      }
      NextPlace(c, i, d, n, t);
      if k == i {
        break;
      }
      MovedOne(before, a[..], c, i, d, t);
      assert a[k] == before[k];
      a[j] := a[k];
      j := k;
      t := t + 1;
    }
    MovedOne(before, a[..], c, i, d, t);
    a[j] := temp;
  }

  /** The place after place t of a cycle: the next one, or the first when t is the last. */
  lemma NextPlace(c: seq<int>, i: int, d: int, n: int, t: nat)
    requires IsCycle(c, i, d, n) && t < |c|
    ensures Next(c[t], d, n) == (if t + 1 < |c| then c[t + 1] else i) && c[0] == i
    ensures t + 1 < |c| ==> c[t + 1] != i
  {
    assert Follows(c, i, d, n, t);
  }

  lemma NextIsMod(j: int, amount: int, n: nat)
    requires 0 <= j < n
    ensures Next(j, amount % n, n) == (j + amount) % n
  {
    AddMod(j, amount, n);
    var d := amount % n;
    if j + d >= n {
      ModUnique(j + d, n, j + d - n, 1);
    } else {
      ModUnique(j + d, n, j + d, 0);
    }
  }

  lemma MovedIsRotated<T>(s: seq<T>, r: seq<T>, amount: int)
    requires |r| == |s| > 0
    requires forall x :: 0 <= x < |s| ==> r[x] == s[Next(x, amount % |s|, |s|)]
    ensures r == Rotated(s, amount)
  {
    forall x | 0 <= x < |s|
      ensures r[x] == Rotated(s, amount)[x]
    {
      NextIsMod(x, amount, |s|);
      RotatedAt(s, amount, x);
    }
  }

  /** rotate: the only error is a nil slice. */
  method Rotate<T>(slice: array?<T>, amount: int) returns (ok: bool)
    modifies if slice == null then {} else {slice}
    ensures ok <==> slice != null
    ensures slice != null ==> slice[..] == Rotated(old(slice[..]), amount)
  {
    if slice == null {
      return false;
    }
    var sLen := slice.Length;
    if sLen == 0 {
      return true;
    }
    var d := GoRem(amount, sLen);
    if d < 0 {
      d := d + sLen;
    }
    GoRemWraps(amount, sLen);
    if d == 0 {
      MovedIsRotated(slice[..], slice[..], amount);
      return true;
    }
    JuggleCycles(slice, d);
    MovedIsRotated(old(slice[..]), slice[..], amount);
    return true;
  }

  /** The shifting part of rotate: one cycle after the other. */
  method JuggleCycles<T>(slice: array<T>, d: nat)
    requires 0 < d < slice.Length
    modifies slice
    ensures forall x :: 0 <= x < slice.Length ==> slice[x] == old(slice[Next(x, d, slice.Length)])
  {
    var sLen := slice.Length;
    var gcd := ComputeGcd(d, sLen);
    GcdDivides(d, sLen);
    GcdAtMost(d, sLen);
    ghost var start := slice[..];
    for i := 0 to gcd
      invariant Juggled(start, slice[..], d, gcd, i)
    {
      CycleStructure(i, d, sLen);
      ghost var before := slice[..];
      RotateCycle(slice, i, d, Cycle(i, d, sLen));
      OneMoreClass(start, before, slice[..], i, d, gcd);
    }
  }

  /** The residue classes below i have been rotated, the others are untouched. */
  ghost predicate Juggled<T>(start: seq<T>, now: seq<T>, d: nat, g: nat, i: nat)
    requires 0 < d < |start| && g > 0
  {
    && |now| == |start|
    && forall x :: 0 <= x < |start| ==> now[x] == start[if x % g < i then Next(x, d, |start|) else x]
  }

  /** The elements at the places of a cycle have moved d places to the left, no others have. */
  ghost predicate OneCycleMoved<T>(before: seq<T>, now: seq<T>, c: seq<int>, d: nat) {
    PartMoved(before, now, c, d, |c|)
  }

  lemma OneMoreClass<T>(start: seq<T>, before: seq<T>, now: seq<T>, i: nat, d: nat, g: nat)
    requires 0 < d < |start| && g == Gcd(d, |start|) && i < g <= |start| && g > 0
    requires Juggled(start, before, d, g, i) && OneCycleMoved(before, now, Cycle(i, d, |start|), d)
    ensures Juggled(start, now, d, g, i + 1)
  {
    var n, c := |start|, Cycle(i, d, |start|);
    GcdDivides(d, n);
    forall x | 0 <= x < n
      ensures now[x] == start[if x % g < i + 1 then Next(x, d, n) else x]
    {
      CycleMembers(i, x, d, n);
      if x % g == i {
        NextInClass(x, d, n, g);
        var s :| 0 <= s < |c| && c[s] == x;
      } else {
        assert x !in c;
      }
    }
  }

  lemma GcdAtMost(d: nat, n: nat)
    requires 0 < d < n
    ensures Gcd(d, n) <= d
  {
    GcdDivides(d, n);
    DivMod(d, Gcd(d, n));
    if d / Gcd(d, n) <= 0 {
      MulMonotone(d / Gcd(d, n), 0, Gcd(d, n));
    } else {
      MulMonotone(1, d / Gcd(d, n), Gcd(d, n));
    }
  }

  lemma NextInClass(x: int, d: nat, n: nat, g: nat)
    requires 0 <= x < n && 0 < d < n && g > 0 && d % g == 0 && n % g == 0
    ensures 0 <= Next(x, d, n) < n && Next(x, d, n) % g == x % g
  {
    DivMod(x, g);
    DivMod(d, g);
    DivMod(n, g);
    Distribute(x / g, d / g, g);
    Distribute(x / g + d / g, -(n / g), g);
    ModUnique(x + d, g, x % g, x / g + d / g);
    ModUnique(x + d - n, g, x % g, x / g + d / g - n / g);
  }

  method RotateLeft<T>(slice: array?<T>, amount: int) returns (ok: bool)
    modifies if slice == null then {} else {slice}
    ensures ok <==> slice != null
    ensures slice != null ==> slice[..] == Rotated(old(slice[..]), amount)
  {
    ok := Rotate(slice, amount);
  }

  method RotateRight<T>(slice: array?<T>, amount: int) returns (ok: bool)
    modifies if slice == null then {} else {slice}
    ensures ok <==> slice != null
    ensures slice != null ==> slice[..] == Rotated(old(slice[..]), -amount)
  {
    ok := Rotate(slice, -amount);
  }

  // ---------- what a rotation keeps, and how it is undone ----------

  lemma RotatedAt<T>(s: seq<T>, amount: int, i: int)
    requires 0 <= i < |s|
    ensures 0 <= (i + amount) % |s| < |s| && Rotated(s, amount)[i] == s[(i + amount) % |s|]
  {
  }

  lemma ShiftTwice(i: int, a: int, b: int, n: nat)
    requires n > 0
    ensures ((i + b) % n + a) % n == (i + (a + b)) % n
  {
    AddMod(a, i + b, n);
    assert a + (i + b) == i + (a + b) && a + (i + b) % n == (i + b) % n + a;
  }

  lemma RotatedTwice<T>(s: seq<T>, a: int, b: int)
    ensures Rotated(Rotated(s, a), b) == Rotated(s, a + b)
  {
    var once, both := Rotated(s, a), Rotated(s, a + b);
    var twice := Rotated(once, b);
    forall i | 0 <= i < |s|
      ensures twice[i] == both[i]
    {
      RotatedAt(once, b, i);
      RotatedAt(s, a, (i + b) % |s|);
      RotatedAt(s, a + b, i);
      ShiftTwice(i, a, b, |s|);
    }
  }

  /** Rotating back by the same amount restores the slice, whatever the amount. */
  lemma RotateRightUndoesLeft<T>(s: seq<T>, amount: int)
    ensures Rotated(Rotated(s, amount), -amount) == s
  {
    var once := Rotated(s, amount);
    var back := Rotated(once, -amount);
    forall i | 0 <= i < |s|
      ensures back[i] == s[i]
    {
      RotatedAt(once, -amount, i);
      RotatedAt(s, amount, (i - amount) % |s|);
      ShiftTwice(i, amount, -amount, |s|);
      ModUnique(i, |s|, i, 0);
    }
  }

  lemma RotatedTo<T>(s: seq<T>, amount: int, i: nat)
    requires i < |s|
    ensures s[i] in Rotated(s, amount)
  {
    var j := (i - amount) % |s|;
    RotatedAt(s, amount, j);
    ShiftTwice(i, amount, -amount, |s|);
    ModUnique(i, |s|, i, 0);
    assert Rotated(s, amount)[j] == s[i];
  }

  /** An element stands in a rotation if and only if it stood in the slice. */
  lemma RotatedMembers<T>(s: seq<T>, amount: int, x: T)
    ensures x in Rotated(s, amount) <==> x in s
  {
    if x in s {
      var i :| 0 <= i < |s| && s[i] == x;
      RotatedTo(s, amount, i);
    }
    if x in Rotated(s, amount) {
      var j :| 0 <= j < |s| && Rotated(s, amount)[j] == x;
      RotatedAt(s, amount, j);
    }
  }

  /** A rotation of different elements has different elements. */
  lemma RotatedDistinct<T>(s: seq<T>, amount: int)
    requires forall i, j :: 0 <= i < j < |s| ==> s[i] != s[j]
    ensures forall i, j :: 0 <= i < j < |s| ==> Rotated(s, amount)[i] != Rotated(s, amount)[j]
  {
    forall i, j | 0 <= i < j < |s|
      ensures Rotated(s, amount)[i] != Rotated(s, amount)[j]
    {
      RotatedAt(s, amount, i);
      RotatedAt(s, amount, j);
      ShiftedApart(i, j, amount, |s|);
    }
  }

  lemma ShiftedApart(i: nat, j: nat, amount: int, n: nat)
    requires i < j < n
    ensures (i + amount) % n != (j + amount) % n
  {
    var p, q := (i + amount) / n, (j + amount) / n;
    DivMod(i + amount, n);
    DivMod(j + amount, n);
    Distribute(q, -p, n);
    if (i + amount) % n == (j + amount) % n {
      ModUnique(j - i, n, 0, q - p);
      ModUnique(j - i, n, j - i, 0);
    }
  }
}
