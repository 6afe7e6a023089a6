/** Sprite-sheet layout of spritesheet.py: which extracted frame files are used,
    the grid the frames are laid out on (`getGrid`), where each frame is pasted,
    and the final downscale to the 4096-pixel limit. */
module Sprites {
  import opened Text
  import opened PyNum
  import opened Sorting

  /** Largest sheet edge, in pixels. */
  const SheetLimit: nat := 4096

  // ---------------------------------------------------------------------------
  // Frame files

  /** `re.match(re.escape(base) + "-frame[0-9]{5}\.png", name)`: a prefix match,
      so anything may follow ".png". */
  predicate IsFrameName(base: string, name: string)
  {
    var p := base + "-frame";
    && StartsWith(name, p)
    && |name| >= |p| + 9
    && (forall k :: |p| <= k < |p| + 5 ==> IsDigit(name[k]))
    && name[|p| + 5..|p| + 9] == ".png"
  }

  /** The files of `names` that are frames of `base`, in the order of `names`. */
  function Matching(base: string, names: seq<string>): (r: seq<string>)
    ensures |r| <= |names|
    ensures forall f :: f in r ==> f in names && IsFrameName(base, f)
  {
    if |names| == 0 then []
    else
      var last := names[|names| - 1];
      Matching(base, names[..|names| - 1]) + (if IsFrameName(base, last) then [last] else [])
  }

  /** The name ffmpeg writes for frame k with the pattern `<base>-frame%05d.png`. */
  function FrameFileName(base: string, k: nat): string
  {
    var digits := NatToString(k);
    var pad := if |digits| < 5 then seq(5 - |digits|, _ => '0') else "";
    base + "-frame" + pad + digits + ".png"
  }

  lemma {:induction false} NatToStringShort(k: nat, width: nat)
    ensures |NatToString(k)| <= width + 1 <==> k < Pow10(width + 1)
  {
    if k >= 10 {
      if width > 0 {
        NatToStringShort(k / 10, width - 1);
      }
    }
  }

  function Pow10(e: nat): (r: nat)
    ensures r >= 1
  {
    if e == 0 then 1 else 10 * Pow10(e - 1)
  }

  /** A frame ffmpeg writes is picked up exactly when its number still fits in five digits. */
  lemma FrameFileNameMatches(base: string, k: nat)
    ensures IsFrameName(base, FrameFileName(base, k)) <==> k < 100000
  {
    var digits := NatToString(k);
    var p := base + "-frame";
    var name := FrameFileName(base, k);
    NatToStringShort(k, 4);
    assert Pow10(5) == 100000;
    var pad := if |digits| < 5 then seq(5 - |digits|, _ => '0') else "";
    assert name == p + (pad + digits) + ".png";
    assert name[..|p|] == p;
    if k < 100000 {
      assert |pad + digits| == 5;
      assert forall j :: 0 <= j < 5 ==> IsDigit((pad + digits)[j]);
      assert forall j :: |p| <= j < |p| + 5 ==> name[j] == (pad + digits)[j - |p|];
      assert name[|p| + 5..|p| + 9] == ".png";
    } else {
      assert |pad + digits| >= 6;
      assert name[|p| + 5] == digits[5];
      assert name[|p| + 5] != '.';
    }
  }

  /** The loop over `sorted(os.listdir(...))` that collects the frame files. */
  method SelectFrames(base: string, listing: seq<string>) returns (frames: seq<string>)
    ensures frames == Matching(base, SortStrings(listing))
  {
    var names := SortStrings(listing);
    frames := [];
    for i := 0 to |names|
      invariant frames == Matching(base, names[..i])
    {
      assert names[..i + 1][..i] == names[..i];
      if IsFrameName(base, names[i]) {
        frames := frames + [names[i]];
      }
    }
    assert names[..|names|] == names;
  }

  /** Filtering keeps the order of a sorted listing. */
  lemma {:induction false} MatchingSorted(base: string, names: seq<string>)
    requires SortedBy(names, Identity)
    ensures SortedBy(Matching(base, names), Identity)
  {
    if |names| > 0 {
      var init := names[..|names| - 1];
      var last := names[|names| - 1];
      assert SortedBy(init, Identity);
      MatchingSorted(base, init);
      var m := Matching(base, init);
      if IsFrameName(base, last) && |m| > 0 {
        assert m[|m| - 1] in m;
        var j :| 0 <= j < |init| && init[j] == m[|m| - 1];
        SortedByPairs(names, Identity, j, |names| - 1);
      }
    }
  }

  /** A frame name occurs in the selection as often as in the listing; other names never. */
  lemma {:induction false} MatchingCounts(base: string, names: seq<string>, x: string)
    ensures multiset(Matching(base, names))[x] == if IsFrameName(base, x) then multiset(names)[x] else 0
  {
    if |names| > 0 {
      var init := names[..|names| - 1];
      assert names == init + [names[|names| - 1]];
      MatchingCounts(base, init, x);
    }
  }

  /** The frames are exactly the listing's frame files, sorted by name. */
  lemma SelectedFrames(base: string, listing: seq<string>)
    ensures var frames := Matching(base, SortStrings(listing));
      && SortedBy(frames, Identity)
      && forall x :: multiset(frames)[x] == if IsFrameName(base, x) then multiset(listing)[x] else 0
  {
    var names := SortStrings(listing);
    MatchingSorted(base, names);
    forall x ensures multiset(Matching(base, names))[x] == if IsFrameName(base, x) then multiset(listing)[x] else 0 {
      MatchingCounts(base, names, x);
    }
  }

  // ---------------------------------------------------------------------------
  // getGrid

  predicate Divides(d: int, n: int)
  {
    d >= 1 && n % d == 0
  }

  predicate StrictlyIncreasing(s: seq<nat>)
  {
    forall i, j :: 0 <= i < j < |s| ==> s[i] < s[j]
  }

  /** `factors` once the loop counter of getGrid has reached m. */
  function DivisorsBelow(n: nat, m: nat): seq<nat>
  {
    if m <= 1 then []
    else DivisorsBelow(n, m - 1) + (if n % (m - 1) == 0 then [m - 1] else [])
  }

  /** They are the divisors of n below m, ascending. */
  lemma {:induction false} DivisorsBelowExactly(n: nat, m: nat)
    ensures StrictlyIncreasing(DivisorsBelow(n, m))
    ensures forall d :: d in DivisorsBelow(n, m) <==> 1 <= d < m && n % d == 0
    ensures forall i :: 0 <= i < |DivisorsBelow(n, m)| ==> 1 <= DivisorsBelow(n, m)[i] < m
  {
    if m > 1 {
      DivisorsBelowExactly(n, m - 1);
    }
  }

  /** All divisors of n, ascending. */
  function Divisors(n: nat): seq<nat>
  {
    DivisorsBelow(n, n + 1)
  }

  /** Python indexing, where -1 is the last element. */
  function PyIndex(s: seq<nat>, i: int): nat
    requires -|s| <= i < |s|
  {
    if i < 0 then s[|s| + i] else s[i]
  }

  predicate IsSquare(n: nat)
  {
    exists m: nat :: m <= n && m * m == n
  }

  /** The two middle divisors getGrid picks before the 4096 check. */
  function MiddleWidth(n: nat): nat
    requires n >= 1
  {
    DivisorsAreDivisors(n);
    var f := Divisors(n);
    f[|f| / 2]
  }

  function MiddleHeight(n: nat): nat
    requires n >= 1
  {
    DivisorsAreDivisors(n);
    var f := Divisors(n);
    PyIndex(f, |f| / 2 - 1)
  }

  lemma DivisorsAreDivisors(n: nat)
    requires n >= 1
    ensures StrictlyIncreasing(Divisors(n))
    ensures forall i :: 0 <= i < |Divisors(n)| ==> 1 <= Divisors(n)[i] <= n
    ensures forall d :: d in Divisors(n) <==> Divides(d, n)
    ensures 1 in Divisors(n) && n in Divisors(n)
  {
    DivisorsBelowExactly(n, n + 1);
    forall d | Divides(d, n) ensures d <= n {
      if d > n {
        assert false;
      }
    }
  }

  /** `getGrid(n)` with the frame size it reads from the enclosing scope. */
  method GetGrid(n: nat, frameWidth: nat, frameHeight: nat) returns (gw: nat, gh: nat)
    requires n >= 1
    ensures var w, h := MiddleWidth(n), MiddleHeight(n);
      if w * frameWidth > SheetLimit || h * frameHeight > SheetLimit then gw == h && gh == w
      else gw == w && gh == h
    ensures gw >= 1 && gh >= 1
  {
    var i := 1;
    var factors: seq<nat> := [];
    while i < n + 1
      invariant 1 <= i <= n + 1
      invariant factors == DivisorsBelow(n, i)
    {
      if n % i == 0 {
        factors := factors + [i];
      }
      i := i + 1;
    }
    assert factors == Divisors(n);
    DivisorsAreDivisors(n);
    var w := factors[|factors| / 2];
    assert w == MiddleWidth(n);
    var h := PyIndex(factors, |factors| / 2 - 1);
    assert h == MiddleHeight(n);
    if w * frameWidth > SheetLimit || h * frameHeight > SheetLimit {
      return h, w;
    } else {
      return w, h;
    }
  }

  // Divisors pair up: the i-th smallest times the i-th largest is n.

  lemma DivModUnique(n: int, q: int, d: int)
    requires q > 0 && n == q * d
    ensures n / q == d && n % q == 0
  {
    var a, b := n / q, n % q;
    assert n == q * a + b && 0 <= b < q;
    assert q * (d - a) == b;
    if d - a >= 1 {
      assert false;
    } else if d - a <= -1 {
      assert false;
    }
  }

  lemma CoDivisor(n: nat, d: nat)
    requires n >= 1 && Divides(d, n)
    ensures Divides(n / d, n) && n / d * d == n && n / (n / d) == d
  {
    var q := n / d;
    assert n == d * q;
    if q == 0 {
      assert false;
    }
    DivModUnique(n, q, d);
  }

  lemma QuotientDecreasing(n: nat, a: nat, b: nat)
    requires n >= 1 && Divides(a, n) && Divides(b, n) && b < a
    ensures n / a < n / b
  {
    CoDivisor(n, a);
    CoDivisor(n, b);
    if n / a >= n / b {
      assert false;
    }
  }

  /** Two strictly increasing sequences with the same elements are equal. */
  lemma {:induction false} StrictlyIncreasingUnique(a: seq<nat>, b: seq<nat>)
    requires StrictlyIncreasing(a) && StrictlyIncreasing(b)
    requires forall x :: x in a <==> x in b
    ensures a == b
  {
    if |a| == 0 || |b| == 0 {
      FirstIn(a);
      FirstIn(b);
    } else {
      assert a[0] in b;
      assert b[0] in a;
      assert a[0] == b[0];
      forall x ensures x in a[1..] <==> x in b[1..] {
        if x in a[1..] {
          var i :| 1 <= i < |a| && a[i] == x;
          assert x in b && x != b[0];
        }
        if x in b[1..] {
          var i :| 1 <= i < |b| && b[i] == x;
          assert x in a && x != a[0];
        }
      }
      StrictlyIncreasingUnique(a[1..], b[1..]);
    }
  }

  lemma FirstIn(s: seq<nat>)
    ensures |s| > 0 ==> s[0] in s
  {
  }

  /** n divided by each divisor, largest divisor first. */
  function Cofactors(n: nat): (g: seq<nat>)
    ensures |g| == |Divisors(n)|
  {
    var f := Divisors(n);
    DivisorsBelowExactly(n, n + 1);
    seq(|f|, k requires 0 <= k < |f| => n / f[|f| - 1 - k])
  }

  lemma CofactorsIncreasing(n: nat)
    requires n >= 1
    ensures StrictlyIncreasing(Cofactors(n))
  {
    var f := Divisors(n);
    var L := |f|;
    DivisorsAreDivisors(n);
    var g := Cofactors(n);
    forall k1, k2 | 0 <= k1 < k2 < L ensures g[k1] < g[k2] {
      var a, b := f[L - 1 - k1], f[L - 1 - k2];
      assert a in f && b in f && b < a;
      QuotientDecreasing(n, a, b);
    }
  }

  lemma CofactorsAreDivisors(n: nat)
    requires n >= 1
    ensures forall x :: x in Cofactors(n) <==> x in Divisors(n)
  {
    var f := Divisors(n);
    var L := |f|;
    DivisorsAreDivisors(n);
    var g := Cofactors(n);
    forall x ensures x in g <==> x in f {
      if x in g {
        var k :| 0 <= k < L && g[k] == x;
        assert f[L - 1 - k] in f;
        CoDivisor(n, f[L - 1 - k]);
      }
      if x in f {
        CoDivisor(n, x);
        assert n / x in f;
        var j :| 0 <= j < L && f[j] == n / x;
        assert g[L - 1 - j] == n / f[j];
      }
    }
  }

  /** Divisors pair up: the i-th smallest times the i-th largest is n. */
  lemma DivisorPairing(n: nat, i: nat)
    requires n >= 1 && i < |Divisors(n)|
    ensures Divisors(n)[i] * Divisors(n)[|Divisors(n)| - 1 - i] == n
  {
    var f := Divisors(n);
    var L := |f|;
    CofactorsAreDivisorList(n);
    var d, e := f[i], f[L - 1 - i];
    DivisorsAreDivisors(n);
    assert e == Cofactors(n)[L - 1 - i] == n / d;
    assert d in f;
    CoDivisor(n, d);
    assert d * e == e * d;
  }

  /** Read backwards and divided into n, the divisor list is itself. */
  lemma CofactorsAreDivisorList(n: nat)
    requires n >= 1
    ensures Cofactors(n) == Divisors(n)
  {
    DivisorsAreDivisors(n);
    CofactorsIncreasing(n);
    CofactorsAreDivisors(n);
    StrictlyIncreasingUnique(Cofactors(n), Divisors(n));
  }

  /** When the frame count is not a perfect square the middle divisors multiply to it. */
  lemma MiddleProductNonSquare(n: nat)
    requires n >= 1 && !IsSquare(n)
    ensures MiddleWidth(n) * MiddleHeight(n) == n
    ensures |Divisors(n)| % 2 == 0
  {
    var f := Divisors(n);
    var L := |f|;
    DivisorsAreDivisors(n);
    DivisorPairing(n, L / 2);
    if L % 2 == 1 {
      assert false;
    }
    assert L >= 2;
    assert L - 1 - L / 2 == L / 2 - 1;
  }

  /** In a perfect square's divisor list its root sits in the middle. */
  lemma RootInMiddle(n: nat, m: nat)
    requires n > 1 && m * m == n
    ensures |Divisors(n)| % 2 == 1 && Divisors(n)[|Divisors(n)| / 2] == m
  {
    var f := Divisors(n);
    var L := |f|;
    DivisorsAreDivisors(n);
    assert m >= 1;
    DivModUnique(n, m, m);
    assert m in f;
    var j :| 0 <= j < L && f[j] == m;
    DivisorPairing(n, j);
    assert f[L - 1 - j] == m by {
      DivModUnique(n, m, f[L - 1 - j]);
    }
    assert L - 1 - j == j;
  }

  /** For a perfect square n > 1, the two middle divisors cover fewer than n cells. */
  lemma MiddleProductSquare(n: nat)
    requires n > 1 && IsSquare(n)
    ensures MiddleWidth(n) * MiddleWidth(n) == n
    ensures MiddleWidth(n) * MiddleHeight(n) < n
  {
    var m: nat :| m <= n && m * m == n;
    RootInMiddle(n, m);
    var f := Divisors(n);
    var L := |f|;
    DivisorsAreDivisors(n);
    assert 1 in f && n in f && 1 != n;
    assert L >= 3;
    assert f[L / 2 - 1] < f[L / 2];
    assert MiddleHeight(n) == f[L / 2 - 1];
    assert MiddleWidth(n) == m;
    LessTimes(f[L / 2 - 1], m);
  }

  /** The height that covers every frame: the lower middle divisor, which for a perfect
      square is the root itself rather than the divisor below it. */
  function CoveringHeight(n: nat): nat
    requires n >= 1
  {
    DivisorsAreDivisors(n);
    var f := Divisors(n);
    f[(|f| - 1) / 2]
  }

  /** With the covering height the grid has exactly one cell per frame, square or not. */
  lemma CoveringGridFits(n: nat)
    requires n >= 1
    ensures MiddleWidth(n) * CoveringHeight(n) == n
    ensures !IsSquare(n) ==> CoveringHeight(n) == MiddleHeight(n)
  {
    var f := Divisors(n);
    var L := |f|;
    DivisorsAreDivisors(n);
    if n == 1 {
      assert MiddleWidth(n) == 1 && CoveringHeight(n) == 1;
    } else if IsSquare(n) {
      var m: nat :| m <= n && m * m == n;
      RootInMiddle(n, m);
      assert (L - 1) / 2 == L / 2;
    } else {
      MiddleProductNonSquare(n);
      assert (L - 1) / 2 == L / 2 - 1;
    }
  }

  lemma LessTimes(a: nat, m: nat)
    requires a < m
    ensures m * a < m * m
  {
  }

  /** With at least two divisors the wider middle divisor is the larger one. */
  lemma MiddleOrdered(n: nat)
    requires n > 1
    ensures MiddleHeight(n) < MiddleWidth(n)
  {
    var f := Divisors(n);
    DivisorsAreDivisors(n);
    assert 1 in f && n in f && 1 != n;
    assert |f| >= 2;
  }

  lemma OneFrameGrid()
    ensures MiddleWidth(1) == 1 && MiddleHeight(1) == 1
  {
    DivisorsAreDivisors(1);
    assert Divisors(1) == [1];
  }

  // ---------------------------------------------------------------------------
  // Pasting and downscale

  /** The paste loop: frame i lands at (framewidth*px, frameheight*py). */
  method PastePositions(count: nat, gw: nat, frameWidth: nat, frameHeight: nat) returns (positions: seq<(nat, nat)>)
    requires gw >= 1
    ensures |positions| == count
    ensures forall i :: 0 <= i < count ==> positions[i] == (frameWidth * (i % gw), frameHeight * (i / gw))
  {
    var px: nat, py: nat := 0, 0;
    positions := [];
    for i := 0 to count
      invariant |positions| == i
      invariant px == i % gw && py == i / gw
      invariant forall k :: 0 <= k < i ==> positions[k] == (frameWidth * (k % gw), frameHeight * (k / gw))
    {
      positions := positions + [(frameWidth * px, frameHeight * py)];
      px := px + 1;
      if px == gw {
        px := 0;
        py := py + 1;
      }
      NextCell(i, gw);
    }
  }

  lemma NextCell(i: nat, gw: nat)
    requires gw >= 1
    ensures (i + 1) % gw == if i % gw + 1 == gw then 0 else i % gw + 1
    ensures (i + 1) / gw == if i % gw + 1 == gw then i / gw + 1 else i / gw
  {
    var q, r := i / gw, i % gw;
    assert i == gw * q + r;
    if r + 1 == gw {
      DivModUnique(i + 1, gw, q + 1);
    } else {
      assert i + 1 == gw * q + (r + 1);
      var q', r' := (i + 1) / gw, (i + 1) % gw;
      assert i + 1 == gw * q' + r';
      assert gw * (q - q') == r' - (r + 1);
      if q - q' >= 1 {
        assert false;
      } else if q - q' <= -1 {
        assert false;
      }
    }
  }

  /** Frame i is inside the gw x gh canvas exactly when i < gw*gh. */
  lemma PastedInsideCanvas(i: nat, gw: nat, gh: nat, frameWidth: nat, frameHeight: nat)
    requires gw >= 1 && frameWidth >= 1 && frameHeight >= 1
    ensures frameWidth * (i % gw) < frameWidth * gw
    ensures frameHeight * (i / gw) < frameHeight * gh <==> i < gw * gh
  {
    var q, r := i / gw, i % gw;
    assert i == gw * q + r;
    if q < gh {
      assert q + 1 <= gh;
      assert gw * q + r < gw * (q + 1) <= gw * gh;
      assert frameHeight * q < frameHeight * gh;
    } else {
      assert gw * q >= gw * gh;
      assert frameHeight * q >= frameHeight * gh;
    }
  }

  /** The final `if img.width > 4096 or img.height > 4096` step: new frame size. */
  function Downscale(frameWidth: nat, frameHeight: nat, gw: nat, gh: nat): (r: (nat, nat))
    ensures r.0 <= frameWidth && r.1 <= frameHeight
  {
    var width, height := frameWidth * gw, frameHeight * gh;
    if width > SheetLimit || height > SheetLimit then
      var longer := if width >= height then width else height;
      (ScaledSide(frameWidth, longer), ScaledSide(frameHeight, longer))
    else
      (frameWidth, frameHeight)
  }

  /** `math.floor(side * scale)` with `scale = 4096 / longer`. */
  function ScaledSide(side: nat, longer: nat): (r: nat)
    requires longer > SheetLimit
    ensures r <= side
  {
    var scale := SheetLimit as real / longer as real;
    assert side as real * scale <= side as real;
    Floor(side as real * scale)
  }

  /** One side after scaling by 4096 / longer: its frames still fit in 4096. */
  lemma ScaledSideFits(f: nat, g: nat, longer: nat)
    requires f * g <= longer && longer > SheetLimit
    ensures ScaledSide(f, longer) * g <= SheetLimit
  {
    var scale := SheetLimit as real / longer as real;
    var x := f as real * scale;
    var k := Floor(x);
    assert k as real <= x;
    assert (k * g) as real == k as real * g as real;
    assert k as real * g as real <= x * g as real;
    assert x * g as real == (f * g) as real * scale;
    assert (f * g) as real * scale <= longer as real * scale;
    assert longer as real * scale == SheetLimit as real;
  }

  /** After the downscale the sheet fits in 4096 x 4096, and a sheet that already fit is left alone. */
  lemma DownscaleFits(frameWidth: nat, frameHeight: nat, gw: nat, gh: nat)
    ensures var r := Downscale(frameWidth, frameHeight, gw, gh);
      r.0 * gw <= SheetLimit && r.1 * gh <= SheetLimit
    ensures frameWidth * gw <= SheetLimit && frameHeight * gh <= SheetLimit ==>
      Downscale(frameWidth, frameHeight, gw, gh) == (frameWidth, frameHeight)
  {
    var width, height := frameWidth * gw, frameHeight * gh;
    if width > SheetLimit || height > SheetLimit {
      var longer := if width >= height then width else height;
      ScaledSideFits(frameWidth, gw, longer);
      ScaledSideFits(frameHeight, gh, longer);
    }
  }

  // ---------------------------------------------------------------------------
  // The whole helper

  datatype Sheet = Sheet(
    sprite: string,          // "<image without extension>-sprite.png"
    duration: real,          // probe['duration']
    frameWidth: nat,         // final framewidth
    frameHeight: nat,        // final frameheight
    columns: nat,            // gw
    rows: nat,               // gh
    positions: seq<(nat, nat)>  // paste position of each frame, before the downscale
  )

  /** The outcome of spritesheet(): a sheet, or the IndexError getGrid raises when no frame file exists. */
  datatype SheetOutcome = Built(sheet: Sheet) | NoFrames

  method SpriteSheet(imageStem: string, base: string, listing: seq<string>, duration: real, frameWidth: nat, frameHeight: nat)
    returns (r: SheetOutcome)
    ensures var frames := Matching(base, SortStrings(listing));
      r.NoFrames? <==> |frames| == 0
    ensures r.Built? ==> r.sheet.sprite == imageStem + "-sprite.png" && r.sheet.duration == duration
    ensures r.Built? ==> r.sheet.columns >= 1 && r.sheet.rows >= 1
    ensures r.Built? && !IsSquare(|Matching(base, SortStrings(listing))|) ==>
      r.sheet.columns * r.sheet.rows == |Matching(base, SortStrings(listing))|
    ensures r.Built? ==>
      (r.sheet.frameWidth, r.sheet.frameHeight) == Downscale(frameWidth, frameHeight, r.sheet.columns, r.sheet.rows)
    ensures r.Built? ==>
      r.sheet.frameWidth * r.sheet.columns <= SheetLimit && r.sheet.frameHeight * r.sheet.rows <= SheetLimit
    ensures r.Built? ==> |r.sheet.positions| == |Matching(base, SortStrings(listing))|
    ensures r.Built? ==> forall i :: 0 <= i < |r.sheet.positions| ==>
      r.sheet.positions[i] == (frameWidth * (i % r.sheet.columns), frameHeight * (i / r.sheet.columns))
  {
    var frames := SelectFrames(base, listing);
    if |frames| == 0 {
      return NoFrames;
    }
    var gw, gh := GetGrid(|frames|, frameWidth, frameHeight);
    if !IsSquare(|frames|) {
      MiddleProductNonSquare(|frames|);
    }
    var positions := PastePositions(|frames|, gw, frameWidth, frameHeight);
    var size := Downscale(frameWidth, frameHeight, gw, gh);
    DownscaleFits(frameWidth, frameHeight, gw, gh);
    r := Built(Sheet(imageStem + "-sprite.png", duration, size.0, size.1, gw, gh, positions));
  }
}
