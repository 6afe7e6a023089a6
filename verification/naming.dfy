/** Names the converter makes up: the slug of each map (foundrytoencounter.py:298-300),
    the file name an asset gets in the pack directory (2126-2144) and the archive path
    of a compendium pack (1675-1685). */
module Naming {
  import opened Text

  // ---------------------------------------------------------------------------
  // Numbered candidates

  /** `pre + str(k) + post` */
  function Candidate(pre: string, k: nat, post: string): string
  {
    pre + NatToString(k) + post
  }

  /** Different numbers give different candidates. */
  lemma CandidateInjective(pre: string, post: string, i: nat, j: nat)
    requires Candidate(pre, i, post) == Candidate(pre, j, post)
    ensures i == j
  {
    var a, b := NatToString(i), NatToString(j);
    var ca, cb := Candidate(pre, i, post), Candidate(pre, j, post);
    assert |a| == |b|;
    assert a == ca[|pre|..|pre| + |a|];
    assert b == cb[|pre|..|pre| + |b|];
    NatToStringInjective(i, j);
  }

  /** The members of S that are candidates numbered k or more. */
  ghost function Taken(S: set<string>, pre: string, post: string, k: nat): set<string>
  {
    set s | s in S && exists j: nat :: j >= k && s == Candidate(pre, j, post)
  }

  /** Trying the next number leaves fewer taken candidates to run into. */
  lemma TakenShrinks(S: set<string>, pre: string, post: string, k: nat)
    requires Candidate(pre, k, post) in S
    ensures |Taken(S, pre, post, k + 1)| < |Taken(S, pre, post, k)|
  {
    var c := Candidate(pre, k, post);
    var later := Taken(S, pre, post, k + 1);
    assert c !in later by {
      if c in later {
        var j: nat :| j >= k + 1 && c == Candidate(pre, j, post);
        CandidateInjective(pre, post, k, j);
      }
    }
    assert Taken(S, pre, post, k) == later + {c};
  }

  // ---------------------------------------------------------------------------
  // Map slugs

  /** How many of the slugs so far contain the base slug. */
  function CountContaining(slugs: seq<string>, base: string): (n: nat)
    ensures n <= |slugs|
  {
    if |slugs| == 0 then 0
    else CountContaining(slugs[..|slugs| - 1], base) + (if Contains(slugs[|slugs| - 1], base) then 1 else 0)
  }

  /** The map slug as the converter makes it: the base slug followed by the number of
      slugs so far that contain it. */
  function MapSlugAsWritten(slugs: seq<string>, base: string): string
  {
    base + NatToString(CountContaining(slugs, base))
  }

  /** The slugs after a run of maps named by the base slugs, made as written. */
  function SlugsAsWritten(bases: seq<string>): (r: seq<string>)
    ensures |r| == |bases|
  {
    if |bases| == 0 then []
    else
      var before := SlugsAsWritten(bases[..|bases| - 1]);
      before + [MapSlugAsWritten(before, bases[|bases| - 1])]
  }

  /** A map slugged `x1` followed by n maps slugged `x`. */
  function XRun(n: nat): (r: seq<string>)
    ensures |r| == n + 1
  {
    if n == 0 then ["x1"] else XRun(n - 1) + ["x"]
  }

  /** `x10`, then `x1` up to `xn`. */
  function XSlugs(n: nat): (r: seq<string>)
    ensures |r| == n + 1
    ensures forall k :: 0 <= k < |r| ==> |r[k]| > 0 && r[k][0] == 'x'
  {
    if n == 0 then ["x10"] else XSlugs(n - 1) + ["x" + NatToString(n)]
  }

  /** The slugs of that run: `x10` for the first map, then `x1`, `x2`, ... for the others,
      since every earlier slug contains `x`. */
  lemma {:induction false} XRunSlugs(n: nat)
    ensures SlugsAsWritten(XRun(n)) == XSlugs(n)
  {
    if n == 0 {
      assert XRun(0)[..0] == [];
      assert NatToString(0) == "0";
      assert MapSlugAsWritten([], "x1") == "x1" + "0" == "x10";
    } else {
      assert XRun(n)[..n] == XRun(n - 1);
      XRunSlugs(n - 1);
      AllContainX(XSlugs(n - 1));
    }
  }

  lemma AllContainX(slugs: seq<string>)
    requires forall k :: 0 <= k < |slugs| ==> |slugs[k]| > 0 && slugs[k][0] == 'x'
    ensures CountContaining(slugs, "x") == |slugs|
  {
    forall k | 0 <= k < |slugs|
      ensures Contains(slugs[k], "x")
    {
      assert slugs[k][..1] == "x";
    }
    AllContain(slugs, "x");
  }

  /** The tenth `x` map of the run gets `x10`, the slug of the first map. */
  lemma MapSlugCollides()
    ensures SlugsAsWritten(XRun(10))[10] == SlugsAsWritten(XRun(10))[0] == "x10"
  {
    XRunSlugs(10);
    XSlugsFirst(10);
    assert NatToString(10) == "10";
  }

  lemma {:induction false} XSlugsFirst(n: nat)
    ensures XSlugs(n)[0] == "x10"
  {
    if n > 0 {
      XSlugsFirst(n - 1);
    }
  }

  lemma {:induction false} AllContain(slugs: seq<string>, base: string)
    requires forall k :: 0 <= k < |slugs| ==> Contains(slugs[k], base)
    ensures CountContaining(slugs, base) == |slugs|
  {
    if |slugs| > 0 {
      AllContain(slugs[..|slugs| - 1], base);
    }
  }

  /** The first number from k on whose candidate `pre + str(j) + post` is not taken yet. */
  function FreeIndex(taken: set<string>, pre: string, post: string, k: nat): (j: nat)
    ensures j >= k
    ensures Candidate(pre, j, post) !in taken
    decreases |Taken(taken, pre, post, k)|
  {
    if Candidate(pre, k, post) !in taken then k
    else
      TakenShrinks(taken, pre, post, k);
      FreeIndex(taken, pre, post, k + 1)
  }

  /** Every number it passes over has its candidate taken: it is the least free one. */
  lemma {:induction false} FreeIndexLeast(taken: set<string>, pre: string, post: string, k: nat, i: nat)
    requires k <= i < FreeIndex(taken, pre, post, k)
    ensures Candidate(pre, i, post) in taken
    decreases |Taken(taken, pre, post, k)|
  {
    if i > k {
      TakenShrinks(taken, pre, post, k);
      FreeIndexLeast(taken, pre, post, k + 1, i);
    }
  }

  /** The map slug with the collision removed: the number the converter picks, or the
      first larger one whose slug is still free. */
  function MapSlug(slugs: seq<string>, base: string): string
  {
    Candidate(base, FreeIndex((set s | s in slugs), base, "", CountContaining(slugs, base)), "")
  }

  lemma CandidateNoSuffix(base: string, k: nat)
    ensures Candidate(base, k, "") == base + NatToString(k)
  {
    assert base + NatToString(k) + "" == base + NatToString(k);
  }

  /** The corrected slug is always new, and it is the converter's own slug whenever
      that one is. */
  lemma MapSlugFresh(slugs: seq<string>, base: string)
    ensures MapSlug(slugs, base) !in slugs
    ensures MapSlugAsWritten(slugs, base) !in slugs ==> MapSlug(slugs, base) == MapSlugAsWritten(slugs, base)
    ensures StartsWith(MapSlug(slugs, base), base)
  {
    var n := CountContaining(slugs, base);
    CandidateNoSuffix(base, n);
    var r := MapSlug(slugs, base);
    var j := FreeIndex((set s | s in slugs), base, "", n);
    CandidateNoSuffix(base, j);
    assert r[..|base|] == base;
  }

  /** On the same run the corrected slug of the tenth `x` map moves on to `x11`. */
  lemma MapSlugAvoidsCollision()
    ensures MapSlug(SlugsAsWritten(XRun(9)), "x") == "x11"
  {
    XRunSlugs(9);
    var slugs := XSlugs(9);
    AllContainX(slugs);
    var taken := set s | s in slugs;
    XSlugsTenTaken(9);
    XSlugsElevenFree(9);
    assert FreeIndex(taken, "x", "", 10) == FreeIndex(taken, "x", "", 11) == 11;
  }

  /** The first slug, `x10`, is the tenth candidate. */
  lemma XSlugsTenTaken(n: nat)
    ensures Candidate("x", 10, "") in (set s | s in XSlugs(n))
  {
    XSlugsFirst(n);
    CandidateNoSuffix("x", 10);
    assert NatToString(10) == "10";
    assert "x" + "10" == "x10";
    assert XSlugs(n)[0] in XSlugs(n);
  }

  /** With at most nine more slugs, every later slug is two characters long, so `x11` is free. */
  lemma XSlugsElevenFree(n: nat)
    requires n <= 9
    ensures Candidate("x", 11, "") == "x11" && "x11" !in (set s | s in XSlugs(n))
  {
    CandidateNoSuffix("x", 11);
    assert NatToString(11) == "11";
    assert "x" + "11" == "x11";
    XSlugsFirst(n);
    XSlugsShort(n);
    forall k | 0 <= k < |XSlugs(n)|
      ensures XSlugs(n)[k] != "x11"
    {
      if k == 0 {
        assert "x11"[2] != "x10"[2];
      } else {
        assert |XSlugs(n)[k]| != |"x11"|;
      }
    }
  }

  lemma {:induction false} XSlugsShort(n: nat)
    requires n <= 9
    ensures forall k :: 1 <= k <= n ==> |XSlugs(n)[k]| == 2
  {
    if n > 0 {
      XSlugsShort(n - 1);
    }
  }

  predicate Distinct(s: seq<string>)
  {
    forall i, j :: 0 <= i < j < |s| ==> s[i] != s[j]
  }

  /** The slugs of the module, which every new map adds to. */
  class SlugList {
    var slugs: seq<string>

    ghost predicate Valid()
      reads this
    {
      Distinct(slugs)
    }

    constructor()
      ensures slugs == [] && Valid()
    {
      slugs := [];
    }

    /** Makes the slug of a new map and records it; no slug is ever given twice. */
    method AddMapSlug(base: string) returns (slug: string)
      requires Valid()
      modifies this
      ensures slug == MapSlug(old(slugs), base)
      ensures slugs == old(slugs) + [slug]
      ensures Valid()
    {
      MapSlugFresh(slugs, base);
      slug := MapSlug(slugs, base);
      slugs := slugs + [slug];
    }
  }

  // ---------------------------------------------------------------------------
  // Asset file names in the pack directory

  lemma LowerAppend(a: string, b: string)
    ensures Lower(a + b) == Lower(a) + Lower(b)
  {
  }

  lemma LowerDigits(s: string)
    requires forall i :: 0 <= i < |s| ==> IsDigit(s[i])
    ensures Lower(s) == s
  {
  }

  /** Lowering a numbered name numbers the lowered parts. */
  lemma LowerCandidate(stem: string, k: nat, ext: string)
    ensures Lower(stem + NatToString(k) + ext) == Candidate(Lower(stem), k, Lower(ext))
  {
    LowerAppend(stem + NatToString(k), ext);
    LowerAppend(stem, NatToString(k));
    LowerDigits(NatToString(k));
  }

  /** The name an asset file `stem + ext` gets among the lower-cased names already in the
      pack directory: its own name lower-cased when free, else with the first number
      from 1 on that gives a free name. */
  method DedupName(stem: string, ext: string, existing: set<string>) returns (name: string)
    ensures name !in existing
    ensures Lower(stem + ext) !in existing ==> name == Lower(stem + ext)
    ensures Lower(stem + ext) in existing ==>
      name == Candidate(Lower(stem), FreeIndex(existing, Lower(stem), Lower(ext), 1), Lower(ext))
  {
    if Lower(stem + ext) in existing {
      ghost var pre, post := Lower(stem), Lower(ext);
      var count: nat := 1;
      while Lower(stem + NatToString(count) + ext) in existing
        invariant count >= 1
        invariant FreeIndex(existing, pre, post, count) == FreeIndex(existing, pre, post, 1)
        decreases |Taken(existing, pre, post, count)|
      {
        LowerCandidate(stem, count, ext);
        TakenShrinks(existing, pre, post, count);
        count := count + 1;
      }
      name := Lower(stem + NatToString(count) + ext);
      LowerCandidate(stem, count, ext);
    } else {
      name := Lower(stem + ext);
    }
  }



  // ---------------------------------------------------------------------------
  // Pack paths

  /** Some archive entry starts with the prefix. */
  predicate AnyStartsWith(names: seq<string>, prefix: string)
  {
    exists k :: 0 <= k < |names| && StartsWith(names[k], prefix)
  }

  /** The archive path of a pack: made relative, put under the module's directory and
      the archive's top directory when the archive has entries there, with a leading
      `./` resolved against that directory or dropped. */
  function PackPath(path: string, modName: string, dirpath: string, names: seq<string>): string
  {
    var p1 := if StartsWith(path, "/") then path[1..] else path;
    var p2 := if AnyStartsWith(names, modName + "/") then modName + "/" + p1 else p1;
    var p3 := if dirpath != "" && !StartsWith(p2, dirpath + "/") && AnyStartsWith(names, dirpath + "/")
              then dirpath + "/" + p2 else p2;
    if StartsWith(p3, "./") && dirpath != "" then dirpath + p3[1..]
    else if StartsWith(p3, "./") then p3[2..]
    else p3
  }

  lemma StartsWithJoin(d: string, p: string)
    ensures StartsWith(d + "/" + p, d + "/")
  {
    assert (d + "/" + p)[..|d + "/"|] == d + "/";
  }

  lemma StartsWithDotResolved(d: string, p: string)
    requires StartsWith(p, d + "/") && StartsWith(p, "./")
    ensures StartsWith(d + p[1..], d + "/")
  {
    assert p[|d|] == '/';
    assert (d + p[1..])[..|d| + 1] == d + "/";
  }

  /** When the archive has entries under its top directory, the pack path ends up under it. */
  lemma PackPathUnderTopDirectory(path: string, modName: string, dirpath: string, names: seq<string>)
    requires dirpath != "" && AnyStartsWith(names, dirpath + "/")
    ensures StartsWith(PackPath(path, modName, dirpath, names), dirpath + "/")
  {
    var p1 := if StartsWith(path, "/") then path[1..] else path;
    var p2 := if AnyStartsWith(names, modName + "/") then modName + "/" + p1 else p1;
    var p3 := if !StartsWith(p2, dirpath + "/") then dirpath + "/" + p2 else p2;
    StartsWithJoin(dirpath, p2);
    assert StartsWith(p3, dirpath + "/");
    if StartsWith(p3, "./") {
      StartsWithDotResolved(dirpath, p3);
    }
  }

  /** A plain relative path in an archive with neither directory is left as it is. */
  lemma PackPathPlain(path: string, modName: string, dirpath: string, names: seq<string>)
    requires !StartsWith(path, "/") && !StartsWith(path, "./")
    requires !AnyStartsWith(names, modName + "/") && !AnyStartsWith(names, dirpath + "/")
    ensures PackPath(path, modName, dirpath, names) == path
  {
  }

  /** An absolute path loses its leading slash. */
  lemma PackPathRelative(path: string, modName: string, dirpath: string, names: seq<string>)
    requires StartsWith(path, "/") && !StartsWith(path[1..], "/") && !StartsWith(path[1..], "./")
    requires !AnyStartsWith(names, modName + "/") && !AnyStartsWith(names, dirpath + "/")
    ensures PackPath(path, modName, dirpath, names) == path[1..]
  {
  }
}
