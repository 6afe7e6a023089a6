/** The fixed vocabularies of the compendium export: inline roll links
    (foundrytoencounter.py:269-273), item type codes (2879-2919), weapon property
    codes (2920-2944), spell schools (239-248, 2820-2822), spell components
    (2835-2850), roll-table range labels (2524-2528) and monster speeds (3036-3045). */
module Compendium {
  import opened Common
  import opened Text

  // ---------------------------------------------------------------------------
  // Inline rolls

  /** The link a `[[/r expr # caption]]` roll becomes; the caption is used only when it is
      present and non-empty. */
  function FixRoll(expr: string, caption: Option<string>): string
  {
    if caption.Some? && caption.value != "" then
      "<a href=\"/roll/" + expr + "/" + caption.value + "\">" + expr + "</a>"
    else
      "<a href=\"/roll/" + expr + "\">" + expr + "</a>"
  }

  /** The link always rolls the expression and shows the expression as its text; the
      caption, when used, follows the expression in the link target. */
  lemma FixRollShowsExpression(expr: string, caption: Option<string>)
    ensures StartsWith(FixRoll(expr, caption), "<a href=\"/roll/" + expr)
    ensures EndsWith(FixRoll(expr, caption), "\">" + expr + "</a>")
    ensures caption.Some? && caption.value != "" ==>
      StartsWith(FixRoll(expr, caption), "<a href=\"/roll/" + expr + "/" + caption.value + "\">")
    ensures !(caption.Some? && caption.value != "") ==> |FixRoll(expr, caption)| == 21 + 2 * |expr|
  {
    var r := FixRoll(expr, caption);
    var head := "<a href=\"/roll/" + expr;
    var tail := "\">" + expr + "</a>";
    if caption.Some? && caption.value != "" {
      var mid := "/" + caption.value;
      assert r == head + mid + tail;
      assert r[..|head|] == head;
      assert r[|r| - |tail|..] == tail;
      assert r[..|head + mid + "\">"|] == head + mid + "\">";
    } else {
      assert r == head + tail;
      assert r[..|head|] == head;
      assert r[|r| - |tail|..] == tail;
    }
  }

  // ---------------------------------------------------------------------------
  // Item type codes

  function ConsumableCode(consumableType: string): string
  {
    if consumableType == "potion" then "P"
    else if consumableType == "wand" then "WD"
    else if consumableType == "scroll" then "SC"
    else if consumableType in ["food", "trinket"] then "G"
    else if consumableType == "ammo" then "A"
    else "G"
  }

  function ArmorCode(armorType: string): string
  {
    if armorType in ["clothing", "light"] then "LA"
    else if armorType in ["medium"] then "MA"
    else if armorType in ["heavy"] then "HA"
    else if armorType in ["shield"] then "S"
    else if armorType in ["trinket"] then "G"
    else "AA"
  }

  function WeaponCode(weaponType: string, staff: bool): string
  {
    if weaponType in ["simpleR", "martialR"] then "R"
    else if weaponType in ["simpleM", "martialM"] then "M"
    else if staff then "ST"
    else "WW"
  }

  /** Each consumable code names exactly its kinds; every kind the converter does not
      know is general gear. */
  lemma ConsumableCodes(t: string)
    ensures ConsumableCode(t) == "P" <==> t == "potion"
    ensures ConsumableCode(t) == "WD" <==> t == "wand"
    ensures ConsumableCode(t) == "SC" <==> t == "scroll"
    ensures ConsumableCode(t) == "A" <==> t == "ammo"
    ensures ConsumableCode(t) == "G" <==> t !in ["potion", "wand", "scroll", "ammo"]
  {
  }

  /** Each armour code names exactly its kinds; unknown kinds are `AA`. */
  lemma ArmorCodes(t: string)
    ensures ArmorCode(t) == "LA" <==> t == "clothing" || t == "light"
    ensures ArmorCode(t) == "MA" <==> t == "medium"
    ensures ArmorCode(t) == "HA" <==> t == "heavy"
    ensures ArmorCode(t) == "S" <==> t == "shield"
    ensures ArmorCode(t) == "G" <==> t == "trinket"
    ensures ArmorCode(t) == "AA" <==> t !in ["clothing", "light", "medium", "heavy", "shield", "trinket"]
  {
  }

  /** Ranged and melee come from the weapon type alone; the staff flag only matters for
      the other weapon types. */
  lemma WeaponCodes(t: string, staff: bool)
    ensures WeaponCode(t, staff) == "R" <==> t == "simpleR" || t == "martialR"
    ensures WeaponCode(t, staff) == "M" <==> t == "simpleM" || t == "martialM"
    ensures WeaponCode(t, staff) == "ST" <==> staff && t !in ["simpleR", "martialR", "simpleM", "martialM"]
    ensures WeaponCode(t, staff) == "WW" <==> !staff && t !in ["simpleR", "martialR", "simpleM", "martialM"]
  {
  }

  // ---------------------------------------------------------------------------
  // Weapon properties

  function PropertyCode(key: string): Option<string>
  {
    if key == "amm" then Some("A")
    else if key == "fin" then Some("F")
    else if key == "hvy" then Some("H")
    else if key == "lgt" then Some("L")
    else if key == "lod" then Some("LD")
    else if key == "rch" then Some("R")
    else if key == "spc" then Some("S")
    else if key == "thr" then Some("T")
    else if key == "two" then Some("2H")
    else if key == "ver" then Some("V")
    else None
  }

  /** The property key a code stands for. */
  function PropertyKey(code: string): Option<string>
  {
    if code == "A" then Some("amm")
    else if code == "F" then Some("fin")
    else if code == "H" then Some("hvy")
    else if code == "L" then Some("lgt")
    else if code == "LD" then Some("lod")
    else if code == "R" then Some("rch")
    else if code == "S" then Some("spc")
    else if code == "T" then Some("thr")
    else if code == "2H" then Some("two")
    else if code == "V" then Some("ver")
    else None
  }

  /** The codes are one-to-one with the known keys. */
  lemma PropertyCodeInverse(key: string, code: string)
    ensures PropertyCode(key) == Some(code) <==> PropertyKey(code) == Some(key)
  {
  }

  /** The codes of the set, known properties, in the order of the properties. */
  function PropertyCodes(props: seq<(string, bool)>): (r: seq<string>)
    ensures |r| <= |props|
  {
    if |props| == 0 then []
    else
      var (key, on) := props[|props| - 1];
      PropertyCodes(props[..|props| - 1]) + (if on && PropertyCode(key).Some? then [PropertyCode(key).value] else [])
  }

  /** The property loop of the item export. */
  method WeaponProperties(props: seq<(string, bool)>) returns (codes: seq<string>, text: string)
    ensures codes == PropertyCodes(props)
    ensures text == Join(codes, ",")
  {
    codes := [];
    for i := 0 to |props|
      invariant codes == PropertyCodes(props[..i])
    {
      assert props[..i + 1][..i] == props[..i];
      var (key, on) := props[i];
      if !on {
        continue;
      }
      var code := PropertyCode(key);
      if code.Some? {
        codes := codes + [code.value];
      }
    }
    assert props[..|props|] == props;
    text := Join(codes, ",");
  }

  /** Every code printed is that of a property that is set, and reading the codes back
      gives that property's key. */
  lemma {:induction false} PropertyCodesSound(props: seq<(string, bool)>, k: nat)
    requires k < |PropertyCodes(props)|
    ensures exists i :: 0 <= i < |props| && props[i].1 && PropertyKey(PropertyCodes(props)[k]) == Some(props[i].0)
  {
    var n := |props|;
    var before := PropertyCodes(props[..n - 1]);
    if k < |before| {
      PropertyCodesSound(props[..n - 1], k);
      var i :| 0 <= i < n - 1 && props[..n - 1][i].1 && PropertyKey(before[k]) == Some(props[..n - 1][i].0);
      assert props[i] == props[..n - 1][i];
    } else {
      PropertyCodeInverse(props[n - 1].0, PropertyCodes(props)[k]);
    }
  }

  /** How many properties are set and known. */
  function CountKnown(props: seq<(string, bool)>): nat
  {
    if |props| == 0 then 0
    else
      var (key, on) := props[|props| - 1];
      CountKnown(props[..|props| - 1]) + (if on && PropertyCode(key).Some? then 1 else 0)
  }

  /** One code per set, known property, and nothing else. */
  lemma {:induction false} PropertyCodesCount(props: seq<(string, bool)>)
    ensures |PropertyCodes(props)| == CountKnown(props)
  {
    if |props| > 0 {
      PropertyCodesCount(props[..|props| - 1]);
    }
  }

  /** Every set, known property is printed, in place: its code comes after the codes of
      the set, known properties before it. */
  lemma {:induction false} PropertyCodesComplete(props: seq<(string, bool)>, i: nat)
    requires i < |props| && props[i].1 && PropertyCode(props[i].0).Some?
    ensures CountKnown(props[..i]) < |PropertyCodes(props)|
    ensures PropertyCodes(props)[CountKnown(props[..i])] == PropertyCode(props[i].0).value
    decreases |props|
  {
    var n := |props|;
    var p := props[..n - 1];
    PropertyCodesCount(props);
    PropertyCodesCount(p);
    if i < n - 1 {
      assert p[i] == props[i];
      assert p[..i] == props[..i];
      PropertyCodesComplete(p, i);
    } else {
      assert props[..i] == p;
    }
  }

  // ---------------------------------------------------------------------------
  // Spell schools

  function SchoolLetter(school: string): string
  {
    if school == "abj" then "A"
    else if school == "con" then "C"
    else if school == "div" then "D"
    else if school == "enc" then "EN"
    else if school == "evo" then "EV"
    else if school == "ill" then "I"
    else if school == "nec" then "N"
    else if school == "trs" then "T"
    else school
  }

  const Schools: seq<string> := ["abj", "con", "div", "enc", "evo", "ill", "nec", "trs"]

  /** The school a letter stands for. */
  function SchoolOf(letter: string): Option<string>
  {
    if letter == "A" then Some("abj")
    else if letter == "C" then Some("con")
    else if letter == "D" then Some("div")
    else if letter == "EN" then Some("enc")
    else if letter == "EV" then Some("evo")
    else if letter == "I" then Some("ill")
    else if letter == "N" then Some("nec")
    else if letter == "T" then Some("trs")
    else None
  }

  /** A known school's letter reads back as that school, so known schools get distinct
      letters; any other school is printed as it is. */
  lemma SchoolLetters(a: string)
    ensures a in Schools ==> SchoolOf(SchoolLetter(a)) == Some(a)
    ensures a !in Schools ==> SchoolLetter(a) == a
  {
  }

  // ---------------------------------------------------------------------------
  // Spell components

  /** The component keys that never print a letter. */
  const Skipped: seq<string> := ["value", "ritual", "concentration"]

  /** The note added to the material description when the spell consumes it. */
  const ConsumedNote := ", which the spell consumes"

  /** The components so far and the material description, after one more key. The
      description takes the consumed note each time it is used, as the converter
      changes it in place. */
  function ComponentStep(acc: (seq<string>, string), key: string, on: bool, consumed: bool): (r: (seq<string>, string))
    requires on ==> |key| > 0
    ensures |r.0| <= |acc.0| + 1
  {
    var (prev, mat) := acc;
    if key in Skipped || !on then (prev, mat)
    else
      var c := [UpperChar(key[0])];
      if c == "M" && mat != "" then
        var mat' := if consumed then mat + ConsumedNote else mat;
        (prev + [c + " (" + mat' + ")"], mat')
      else (prev + [c], mat)
  }

  /** Every key that is set has a first letter to print. */
  predicate SetKeysNamed(keys: seq<(string, bool)>)
  {
    forall i :: 0 <= i < |keys| && keys[i].1 ==> |keys[i].0| > 0
  }

  /** The component letters, with the material description after `M`. */
  function Components(keys: seq<(string, bool)>, material: string, consumed: bool): (r: (seq<string>, string))
    requires SetKeysNamed(keys)
    ensures |r.0| <= |keys|
  {
    if |keys| == 0 then ([], material)
    else
      var last := keys[|keys| - 1];
      ComponentStep(Components(keys[..|keys| - 1], material, consumed), last.0, last.1, consumed)
  }

  /** The component loop of the spell export. */
  method SpellComponents(keys: seq<(string, bool)>, material: string, consumed: bool) returns (comps: seq<string>, text: string)
    requires SetKeysNamed(keys)
    ensures comps == Components(keys, material, consumed).0
    ensures text == Join(comps, ",")
  {
    comps := [];
    var mat := material;
    for i := 0 to |keys|
      invariant (comps, mat) == Components(keys[..i], material, consumed)
    {
      assert keys[..i + 1][..i] == keys[..i];
      var (key, on) := keys[i];
      if key in Skipped {
        continue;
      } else if on {
        var comp := [UpperChar(key[0])];
        if comp == "M" && mat != "" {
          if consumed {
            mat := mat + ConsumedNote;
          }
          comp := comp + " (" + mat + ")";
        }
        comps := comps + [comp];
      }
    }
    assert keys[..|keys|] == keys;
    text := Join(comps, ",");
  }

  // The components stated key by key

  /** The keys that print a component: set, and not one of the skipped keys, in order. */
  function Selected(keys: seq<(string, bool)>): seq<string>
  {
    if |keys| == 0 then []
    else
      var (key, on) := keys[|keys| - 1];
      Selected(keys[..|keys| - 1]) + (if on && key !in Skipped then [key] else [])
  }

  /** The letter a key prints. */
  function Initial(key: string): char
  {
    if |key| > 0 then UpperChar(key[0]) else ' '
  }

  /** How many of the keys print `M`. */
  function MCount(sel: seq<string>): nat
  {
    if |sel| == 0 then 0
    else MCount(sel[..|sel| - 1]) + (if Initial(sel[|sel| - 1]) == 'M' then 1 else 0)
  }

  /** The consumed note, n times over when the spell consumes its material. */
  function Notes(consumed: bool, n: nat): string
  {
    if !consumed || n == 0 then "" else Notes(consumed, n - 1) + ConsumedNote
  }

  /** The material description after n uses. */
  function MaterialAfter(material: string, consumed: bool, n: nat): string
  {
    if material == "" then "" else material + Notes(consumed, n)
  }

  /** The entry of a key with letter c that is the n-th to print `M` (counting from 1). */
  function Entry(c: char, material: string, consumed: bool, n: nat): string
  {
    if c == 'M' && material != "" then "M (" + material + Notes(consumed, n) + ")" else [c]
  }

  /** The entries of the selected keys, one per key. */
  function Described(sel: seq<string>, material: string, consumed: bool): seq<string>
  {
    if |sel| == 0 then []
    else Described(sel[..|sel| - 1], material, consumed) + [Entry(Initial(sel[|sel| - 1]), material, consumed, MCount(sel))]
  }

  /** One more use of a material: the description gains the note when consumed, and the
      `M` entry shows the description after that use. */
  lemma MaterialStep(material: string, consumed: bool, m: nat)
    requires material != ""
    ensures MaterialAfter(material, consumed, m + 1)
         == if consumed then MaterialAfter(material, consumed, m) + ConsumedNote else MaterialAfter(material, consumed, m)
    ensures "M" + " (" + MaterialAfter(material, consumed, m + 1) + ")" == Entry('M', material, consumed, m + 1)
  {
    if consumed {
      assert Notes(consumed, m + 1) == Notes(consumed, m) + ConsumedNote;
      assert material + Notes(consumed, m) + ConsumedNote == material + (Notes(consumed, m) + ConsumedNote);
    }
  }

  /** A selected key adds its entry and, for an `M`, one more use of the material. */
  lemma ComponentStepExactly(acc: (seq<string>, string), key: string, material: string, consumed: bool, m: nat)
    requires |key| > 0 && key !in Skipped
    requires acc.1 == MaterialAfter(material, consumed, m)
    ensures ComponentStep(acc, key, true, consumed)
         == (acc.0 + [Entry(Initial(key), material, consumed, m + (if Initial(key) == 'M' then 1 else 0))],
             MaterialAfter(material, consumed, m + (if Initial(key) == 'M' then 1 else 0)))
  {
    if Initial(key) == 'M' && material != "" {
      assert [UpperChar(key[0])] == "M";
      MaterialStep(material, consumed, m);
    } else if Initial(key) == 'M' {
      assert [UpperChar(key[0])] == "M";
    } else {
      assert [UpperChar(key[0])] != "M";
    }
  }

  /** Components of a list with one more key. */
  lemma ComponentsSnoc(keys: seq<(string, bool)>, material: string, consumed: bool)
    requires |keys| > 0 && SetKeysNamed(keys)
    ensures SetKeysNamed(keys[..|keys| - 1])
    ensures Selected(keys) == Selected(keys[..|keys| - 1])
              + (if keys[|keys| - 1].1 && keys[|keys| - 1].0 !in Skipped then [keys[|keys| - 1].0] else [])
    ensures Components(keys, material, consumed)
         == ComponentStep(Components(keys[..|keys| - 1], material, consumed), keys[|keys| - 1].0, keys[|keys| - 1].1, consumed)
  {
    var p := keys[..|keys| - 1];
    forall i | 0 <= i < |p| && p[i].1
      ensures |p[i].0| > 0
    {
      assert p[i] == keys[i];
    }
  }

  /** MCount and Described of a list with one more key. */
  lemma SelectedSnoc(sel: seq<string>, key: string, material: string, consumed: bool)
    ensures MCount(sel + [key]) == MCount(sel) + (if Initial(key) == 'M' then 1 else 0)
    ensures Described(sel + [key], material, consumed)
         == Described(sel, material, consumed) + [Entry(Initial(key), material, consumed, MCount(sel + [key]))]
  {
    assert (sel + [key])[..|sel|] == sel;
  }

  /** The loop's result is the entries of the selected keys, and the description has
      been used once per `M`. */
  lemma {:induction false} ComponentsDescribed(keys: seq<(string, bool)>, material: string, consumed: bool)
    requires SetKeysNamed(keys)
    ensures Components(keys, material, consumed).0 == Described(Selected(keys), material, consumed)
    ensures Components(keys, material, consumed).1 == MaterialAfter(material, consumed, MCount(Selected(keys)))
  {
    if |keys| > 0 {
      var p := keys[..|keys| - 1];
      var (key, on) := keys[|keys| - 1];
      ComponentsSnoc(keys, material, consumed);
      ComponentsDescribed(p, material, consumed);
      if on && key !in Skipped {
        var sp := Selected(p);
        ComponentStepExactly(Components(p, material, consumed), key, material, consumed, MCount(sp));
        SelectedSnoc(sp, key, material, consumed);
      } else {
        assert ComponentStep(Components(p, material, consumed), key, on, consumed) == Components(p, material, consumed);
        assert Selected(keys) == Selected(p) + [] == Selected(p);
      }
    } else {
      assert Notes(consumed, 0) == "";
      assert material + "" == material;
    }
  }

  /** One entry per selected key. */
  lemma {:induction false} DescribedLength(sel: seq<string>, material: string, consumed: bool)
    ensures |Described(sel, material, consumed)| == |sel|
  {
    if |sel| > 0 {
      DescribedLength(sel[..|sel| - 1], material, consumed);
    }
  }

  /** The k-th entry belongs to the k-th selected key. */
  lemma {:induction false} DescribedAt(sel: seq<string>, material: string, consumed: bool, k: nat)
    requires k < |sel|
    ensures |Described(sel, material, consumed)| == |sel|
    ensures Described(sel, material, consumed)[k] == Entry(Initial(sel[k]), material, consumed, MCount(sel[..k + 1]))
  {
    var p := sel[..|sel| - 1];
    DescribedLength(sel, material, consumed);
    DescribedLength(p, material, consumed);
    if k == |sel| - 1 {
      assert sel[..k + 1] == sel;
    } else {
      DescribedAt(p, material, consumed, k);
      assert sel[..k + 1] == p[..k + 1];
    }
  }

  /** The components key by key: one entry per selected key, in order, each the key's
      upper-cased initial; an `M` entry carries the material with the consumed note once
      for each `M` so far, and the description ends with one note per `M`. */
  lemma ComponentsExactly(keys: seq<(string, bool)>, material: string, consumed: bool)
    requires SetKeysNamed(keys)
    ensures Components(keys, material, consumed).1 == MaterialAfter(material, consumed, MCount(Selected(keys)))
    ensures |Components(keys, material, consumed).0| == |Selected(keys)|
    ensures forall k :: 0 <= k < |Selected(keys)| ==>
      Components(keys, material, consumed).0[k]
        == Entry(Initial(Selected(keys)[k]), material, consumed, MCount(Selected(keys)[..k + 1]))
  {
    ComponentsDescribed(keys, material, consumed);
    var sel := Selected(keys);
    DescribedLength(sel, material, consumed);
    forall k | 0 <= k < |sel|
      ensures Described(sel, material, consumed)[k] == Entry(Initial(sel[k]), material, consumed, MCount(sel[..k + 1]))
    {
      DescribedAt(sel, material, consumed, k);
    }
  }

  /** A verbal spell with a consumed material: `V`, then `M` with the material and the
      consumed note in brackets; the ritual flag adds no component. */
  lemma ComponentsScenario(mat: string)
    requires mat != ""
    ensures Components([("vocal", true), ("material", true), ("ritual", true)], mat, true).0
            == ["V", "M (" + mat + ", which the spell consumes)"]
  {
    var keys := [("vocal", true), ("material", true), ("ritual", true)];
    var mat' := mat + ", which the spell consumes";
    assert UpperChar('v') == 'V' && UpperChar('m') == 'M';
    assert "vocal"[1] != "value"[1] && "vocal"[0] != "ritual"[0] && "vocal"[0] != "concentration"[0];
    assert "material"[0] != "value"[0] && "material"[0] != "ritual"[0] && "material"[0] != "concentration"[0];
    assert "vocal"[0] == 'v' && "material"[0] == 'm';
    assert keys[..1][..0] == [];
    assert keys[..2][..1] == keys[..1];
    assert keys[..3][..2] == keys[..2] && keys[..3] == keys;
    var a1 := ComponentStep(([], mat), "vocal", true, true);
    assert [] + ["V"] == ["V"];
    assert a1 == (["V"], mat);
    assert Components(keys[..1], mat, true) == a1;
    var a2 := ComponentStep(a1, "material", true, true);
    var m := "M" + " (" + mat' + ")";
    assert m == "M (" + mat + ", which the spell consumes)";
    assert ["V"] + [m] == ["V", m];
    assert a2 == (["V", m], mat');
    assert Components(keys[..2], mat, true) == a2;
    assert ComponentStep(a2, "ritual", true, true) == a2;
  }

  // ---------------------------------------------------------------------------
  // Roll-table ranges

  /** `lo-hi`, or the single number when both ends agree. */
  function RangeLabel(lo: nat, hi: nat): string
  {
    if lo != hi then NatToString(lo) + "-" + NatToString(hi) else NatToString(lo)
  }

  /** The position of the first `-`, or |s|. */
  function Dash(s: string): (i: nat)
    ensures i <= |s|
    ensures i < |s| ==> s[i] == '-'
    ensures forall k :: 0 <= k < i ==> s[k] != '-'
  {
    if |s| == 0 then 0 else if s[0] == '-' then 0 else 1 + Dash(s[1..])
  }

  /** Reads a range label back. */
  function ParseRange(s: string): Option<(nat, nat)>
  {
    var d := Dash(s);
    var a, b := s[..d], if d < |s| then s[d + 1..] else s;
    if forall k :: 0 <= k < |a| ==> IsDigit(a[k]) then
      if forall k :: 0 <= k < |b| ==> IsDigit(b[k]) then Some((ParseNat(a), ParseNat(b)))
      else None
    else None
  }

  /** The first dash after a run of digits is where the digits end. */
  lemma {:induction false} DashAfterDigits(a: string, rest: string)
    requires forall k :: 0 <= k < |a| ==> IsDigit(a[k])
    requires |rest| == 0 || rest[0] == '-'
    ensures Dash(a + rest) == |a|
  {
    if |a| > 0 {
      assert (a + rest)[1..] == a[1..] + rest;
      DashAfterDigits(a[1..], rest);
    } else {
      assert a + rest == rest;
    }
  }

  /** Two runs of digits around a dash read back as the two numbers. */
  lemma ParsePair(a: string, b: string)
    requires forall k :: 0 <= k < |a| ==> IsDigit(a[k])
    requires forall k :: 0 <= k < |b| ==> IsDigit(b[k])
    ensures ParseRange(a + "-" + b) == Some((ParseNat(a), ParseNat(b)))
  {
    var s := a + "-" + b;
    assert s == a + ("-" + b);
    DashAfterDigits(a, "-" + b);
    assert s[..|a|] == a;
    assert s[|a| + 1..] == b;
  }

  /** A run of digits alone reads back as that number twice. */
  lemma ParseSingle(a: string)
    requires forall k :: 0 <= k < |a| ==> IsDigit(a[k])
    ensures ParseRange(a) == Some((ParseNat(a), ParseNat(a)))
  {
    DashAfterDigits(a, "");
    assert a + "" == a;
    assert a[..|a|] == a;
  }

  /** The label of a range reads back as that range. */
  lemma RangeLabelRoundTrip(lo: nat, hi: nat)
    ensures ParseRange(RangeLabel(lo, hi)) == Some((lo, hi))
  {
    ParseNatToString(lo);
    ParseNatToString(hi);
    if lo != hi {
      ParsePair(NatToString(lo), NatToString(hi));
    } else {
      ParseSingle(NatToString(lo));
    }
  }

  // ---------------------------------------------------------------------------
  // Monster speeds

  /** One entry of a movement block: its key and its value, 0 when unset. */
  datatype Movement = Movement(key: string, value: int)

  function WalkText(m: Movement, units: string): string
  {
    IntToString(m.value) + " " + units
  }

  function OtherText(m: Movement, units: string): string
  {
    m.key + " " + IntToString(m.value) + " " + units
  }

  /** The speed texts in the order the converter builds them: walk speeds go to the
      front as they come, the other set speeds to the back. */
  function Speeds(ms: seq<Movement>, units: string): seq<string>
  {
    if |ms| == 0 then []
    else
      var prev := Speeds(ms[..|ms| - 1], units);
      var m := ms[|ms| - 1];
      if m.value == 0 then prev
      else if m.key == "walk" then [WalkText(m, units)] + prev
      else if m.key != "units" then prev + [OtherText(m, units)]
      else prev
  }

  /** The speed loop of the monster export. */
  method SpeedList(ms: seq<Movement>, units: string) returns (speed: seq<string>, text: string)
    ensures speed == Speeds(ms, units)
    ensures text == Join(speed, ", ")
  {
    speed := [];
    for i := 0 to |ms|
      invariant speed == Speeds(ms[..i], units)
    {
      assert ms[..i + 1][..i] == ms[..i];
      var m := ms[i];
      if m.value == 0 {
        continue;
      }
      if m.key == "walk" {
        speed := [WalkText(m, units)] + speed;
      } else if m.key != "units" {
        speed := speed + [OtherText(m, units)];
      }
    }
    assert ms[..|ms|] == ms;
    text := Join(speed, ", ");
  }

  /** The set walk speeds, and the other set speeds, each in their own order. */
  function Walks(ms: seq<Movement>, units: string): seq<string>
  {
    if |ms| == 0 then []
    else Walks(ms[..|ms| - 1], units)
         + (if ms[|ms| - 1].value != 0 && ms[|ms| - 1].key == "walk" then [WalkText(ms[|ms| - 1], units)] else [])
  }

  function Others(ms: seq<Movement>, units: string): seq<string>
  {
    if |ms| == 0 then []
    else Others(ms[..|ms| - 1], units)
         + (if ms[|ms| - 1].value != 0 && ms[|ms| - 1].key != "walk" && ms[|ms| - 1].key != "units"
            then [OtherText(ms[|ms| - 1], units)] else [])
  }

  function Reverse(s: seq<string>): (r: seq<string>)
    ensures |r| == |s|
  {
    if |s| == 0 then [] else [s[|s| - 1]] + Reverse(s[..|s| - 1])
  }

  /** The speeds are the walk speeds, last first, followed by every other set speed in
      its order. */
  lemma ReverseSnoc(w: seq<string>, x: string)
    ensures Reverse(w + [x]) == [x] + Reverse(w)
  {
    assert (w + [x])[..|w|] == w;
  }

  lemma {:induction false} SpeedsSplit(ms: seq<Movement>, units: string)
    ensures Speeds(ms, units) == Reverse(Walks(ms, units)) + Others(ms, units)
  {
    if |ms| > 0 {
      var init, m := ms[..|ms| - 1], ms[|ms| - 1];
      SpeedsSplit(init, units);
      var w, o := Walks(init, units), Others(init, units);
      if m.value == 0 || m.key == "units" {
        assert m.key == "units" ==> m.key != "walk";
        assert Speeds(ms, units) == Speeds(init, units);
        assert Walks(ms, units) == w + [] == w;
        assert Others(ms, units) == o + [] == o;
      } else if m.key == "walk" {
        assert Walks(ms, units) == w + [WalkText(m, units)];
        assert Others(ms, units) == o + [] == o;
        ReverseSnoc(w, WalkText(m, units));
      } else {
        assert Walks(ms, units) == w + [] == w;
        assert Others(ms, units) == o + [OtherText(m, units)];
      }
    }
  }

  /** A set walk speed is listed first, ahead of every other speed. */
  lemma SpeedsStartWithWalk(ms: seq<Movement>, units: string)
    requires |Walks(ms, units)| > 0
    ensures |Speeds(ms, units)| > 0 && Speeds(ms, units)[0] == Walks(ms, units)[|Walks(ms, units)| - 1]
  {
    SpeedsSplit(ms, units);
  }
}
