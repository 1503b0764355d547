/** The wiki image address of an item, `getItemImageUrl` of
    `frontend/src/utils/osrsImages.js`: the prayer-altar suffix is dropped,
    then spaces and parentheses are made safe for a URL path. */
module OsrsImages {
  import opened Text

  const ImageBase: string := "https://oldschool.runescape.wiki/images/"
  const ImageExtension: string := ".png"
  const GildedSuffix: string := " (Gilded altar)"
  const ChaosSuffix: string := " (Chaos altar)"

  /** The match of the anchored, case-insensitive pattern `/<suffix>$/i`. */
  predicate EndsWithIgnoringCase(s: string, suffix: string)
  {
    |suffix| <= |s| && EqualIgnoringCase(s[|s| - |suffix|..], suffix)
  }

  /** Removes `suffix` when it ends the string, in any case of its ASCII
      letters, and changes nothing otherwise. */
  function StripSuffix(s: string, suffix: string): (r: string)
    ensures EndsWithIgnoringCase(s, suffix) ==>
              |r| == |s| - |suffix| && s == r + s[|r|..] && EqualIgnoringCase(s[|r|..], suffix)
    ensures !EndsWithIgnoringCase(s, suffix) ==> r == s
  {
    if EndsWithIgnoringCase(s, suffix) then s[..|s| - |suffix|] else s
  }

  /** The name with a trailing Gilded-altar suffix removed, and then a
      trailing Chaos-altar suffix removed from what remains. */
  function StripAltar(name: string): (r: string)
    ensures |r| <= |name| && r == name[..|r|]
    ensures |name| - |r| in {0, |GildedSuffix|, |ChaosSuffix|, |GildedSuffix| + |ChaosSuffix|}
    ensures !EndsWithIgnoringCase(name, GildedSuffix) && !EndsWithIgnoringCase(name, ChaosSuffix) ==> r == name
    ensures EndsWithIgnoringCase(name, GildedSuffix) ==> |r| <= |name| - |GildedSuffix|
    ensures !EndsWithIgnoringCase(name, GildedSuffix) && EndsWithIgnoringCase(name, ChaosSuffix) ==>
              |r| == |name| - |ChaosSuffix|
  {
    var once := StripSuffix(name, GildedSuffix);
    assert once == name[..|once|];
    var twice := StripSuffix(once, ChaosSuffix);
    assert twice == once[..|twice|];
    twice
  }

  /** Replaces every occurrence of the character `c` by `rep`. */
  function ReplaceChar(s: string, c: char, rep: string): (r: string)
    ensures c !in rep ==> c !in r
    ensures forall x :: x in r && x != c ==> x in s || x in rep
    ensures c !in s ==> r == s
    decreases |s|
  {
    if |s| == 0 then ""
    else (if s[0] == c then rep else [s[0]]) + ReplaceChar(s[1..], c, rep)
  }

  /** Spaces become underscores, then opening and then closing parentheses
      are percent-encoded, each replacement applied to the whole string. */
  function FormatName(s: string): (r: string)
    ensures forall i :: 0 <= i < |r| ==> !Unsafe(r[i])
    ensures forall x :: x in r ==> x in s || x in "_%289"
  {
    var spaced := ReplaceChar(s, ' ', "_");
    var bracketed := ReplaceChar(spaced, '(', "%28");
    var closed := ReplaceChar(bracketed, ')', "%29");
    assert ' ' !in spaced;
    assert ' ' !in bracketed && '(' !in bracketed;
    closed
  }

  /** The characters a name may not carry into the image path. */
  predicate Unsafe(c: char)
  {
    c == ' ' || c == '(' || c == ')'
  }

  /** The path-safe spelling of one character. */
  function EncodeChar(c: char): string
  {
    if c == ' ' then "_" else if c == '(' then "%28" else if c == ')' then "%29" else [c]
  }

  /** Reference encoding: every character spelled by `EncodeChar`, in order. */
  function Encode(s: string): (r: string)
    ensures forall i :: 0 <= i < |r| ==> !Unsafe(r[i])
    decreases |s|
  {
    if |s| == 0 then "" else EncodeChar(s[0]) + Encode(s[1..])
  }

  /** `getItemImageUrl(itemName)`: the empty string for an empty name, and
      otherwise the image base, the cleaned and encoded name, and `.png`. */
  function GetItemImageUrl(name: string): (url: string)
    ensures name == "" <==> url == ""
    ensures name != "" ==> url == ImageBase + Encode(StripAltar(name)) + ImageExtension
  {
    if name == "" then ""
    else
      FormatIsEncoding(StripAltar(name));
      ImageBase + FormatName(StripAltar(name)) + ImageExtension
  }

  lemma {:induction false} ReplaceCharAppend(a: string, b: string, c: char, rep: string)
    ensures ReplaceChar(a + b, c, rep) == ReplaceChar(a, c, rep) + ReplaceChar(b, c, rep)
    decreases |a|
  {
    if |a| == 0 {
      assert a + b == b;
    } else {
      assert (a + b)[1..] == a[1..] + b;
      ReplaceCharAppend(a[1..], b, c, rep);
    }
  }

  /** The three successive replacements spell every character exactly as
      `EncodeChar` does: none of them undoes or re-encodes another's output. */
  lemma {:induction false} FormatIsEncoding(s: string)
    ensures FormatName(s) == Encode(s)
    decreases |s|
  {
    if |s| > 0 {
      var c, t := s[0], s[1..];
      assert s == [c] + t;
      var r1 := ReplaceChar([c], ' ', "_");
      var r2 := ReplaceChar(r1, '(', "%28");
      var r3 := ReplaceChar(r2, ')', "%29");
      ReplaceCharAppend([c], t, ' ', "_");
      ReplaceCharAppend(r1, ReplaceChar(t, ' ', "_"), '(', "%28");
      ReplaceCharAppend(r2, ReplaceChar(ReplaceChar(t, ' ', "_"), '(', "%28"), ')', "%29");
      assert FormatName(s) == r3 + FormatName(t);
      assert r3 == EncodeChar(c) by {
        assert ReplaceChar([c], ' ', "_") == (if c == ' ' then "_" else [c]) + ReplaceChar([], ' ', "_");
        if c == ' ' {
          assert r1 == "_";
          assert ReplaceChar("_", '(', "%28") == "_";
          assert ReplaceChar("_", ')', "%29") == "_";
        } else if c == '(' {
          assert r1 == "(";
          assert r2 == "%28" by {
            assert ReplaceChar("(", '(', "%28") == "%28" + ReplaceChar("", '(', "%28");
          }
          assert ')' !in r2;
        } else if c == ')' {
          assert r1 == ")";
          assert r2 == ")";
          assert r3 == "%29" by {
            assert ReplaceChar(")", ')', "%29") == "%29" + ReplaceChar("", ')', "%29");
          }
        } else {
          assert r1 == [c];
        }
      }
      FormatIsEncoding(t);
    }
  }

  /** The encoded name carries no space or parenthesis. */
  lemma EncodedNameIsPathSafe(name: string)
    requires name != ""
    ensures var url := GetItemImageUrl(name);
            var formatted := url[|ImageBase|..|url| - |ImageExtension|];
            forall i :: 0 <= i < |formatted| ==> !Unsafe(formatted[i])
  {
  }

  /** A string without unsafe characters is its own encoding. */
  lemma {:induction false} EncodeKeepsSafeName(s: string)
    requires forall i :: 0 <= i < |s| ==> !Unsafe(s[i])
    ensures Encode(s) == s
    decreases |s|
  {
    if |s| > 0 {
      EncodeKeepsSafeName(s[1..]);
      assert s == [s[0]] + s[1..];
    }
  }

  /** A name with no altar suffix and no space or parenthesis appears
      verbatim between the image base and the extension. */
  lemma PlainNameVerbatim(name: string)
    requires name != ""
    requires !EndsWithIgnoringCase(name, GildedSuffix) && !EndsWithIgnoringCase(name, ChaosSuffix)
    requires forall i :: 0 <= i < |name| ==> !Unsafe(name[i])
    ensures GetItemImageUrl(name) == ImageBase + name + ImageExtension
  {
  }

  /** Only a suffix is stripped: a name whose end matches neither altar
      pattern keeps every character, wherever an altar text occurs inside it. */
  lemma NoSuffixNoStrip(name: string)
    requires !EndsWithIgnoringCase(name, GildedSuffix) && !EndsWithIgnoringCase(name, ChaosSuffix)
    ensures StripAltar(name) == name
  {
  }

  /** A Gilded-altar suffix in any letter case is dropped, then a Chaos-altar
      suffix that it was hiding is dropped too. */
  lemma BothSuffixesStripped(base: string, chaos: string, gilded: string)
    requires EqualIgnoringCase(chaos, ChaosSuffix) && EqualIgnoringCase(gilded, GildedSuffix)
    ensures StripAltar(base + chaos + gilded) == base
  {
  }

  /** The two patterns apply once each and in order: when a Chaos-altar suffix
      follows a Gilded-altar one, only the Chaos-altar suffix goes. */
  lemma GildedBeforeChaosKept(base: string, gilded: string, chaos: string)
    requires EqualIgnoringCase(chaos, ChaosSuffix) && EqualIgnoringCase(gilded, GildedSuffix)
    ensures StripAltar(base + gilded + chaos) == base + gilded
  {
    var s := base + gilded + chaos;
    var t := s[|s| - |GildedSuffix|..];
    assert t[7] == chaos[6];
    assert Fold(chaos)[6] == Fold(ChaosSuffix)[6] == 's';
    assert Fold(t)[7] != Fold(GildedSuffix)[7];
    assert !EndsWithIgnoringCase(s, GildedSuffix);
    assert s[|s| - |chaos|..] == chaos;
  }

  /** A lone trailing Gilded-altar suffix, in any letter case, is dropped. */
  lemma GildedSuffixStripped(base: string, gilded: string)
    requires EqualIgnoringCase(gilded, GildedSuffix) && !EndsWithIgnoringCase(base, ChaosSuffix)
    ensures StripAltar(base + gilded) == base
  {
    var s := base + gilded;
    assert |gilded| == |Fold(gilded)| == |GildedSuffix|;
    assert s[|s| - |GildedSuffix|..] == gilded;
    assert s[..|s| - |GildedSuffix|] == base;
  }

  /** A lone trailing Chaos-altar suffix, in any letter case, is dropped. */
  lemma ChaosSuffixStripped(base: string, chaos: string)
    requires EqualIgnoringCase(chaos, ChaosSuffix)
    ensures StripAltar(base + chaos) == base
  {
    var s := base + chaos;
    assert |chaos| == |Fold(chaos)| == |ChaosSuffix|;
    assert s[|s| - |ChaosSuffix|..] == chaos;
    assert s[..|s| - |ChaosSuffix|] == base;
    assert !EndsWithIgnoringCase(s, GildedSuffix) by {
      if |GildedSuffix| <= |s| {
        var t := s[|s| - |GildedSuffix|..];
        assert t[7] == chaos[6];
        assert Fold(chaos)[6] == Fold(ChaosSuffix)[6] == 's';
        assert Fold(t)[7] != Fold(GildedSuffix)[7];
      }
    }
  }

  /** A worked example: the Gilded-altar training method of bones shows the
      plain bones image. */
  lemma BonesExample()
    ensures GetItemImageUrl("Bones (Gilded altar)") == ImageBase + "Bones" + ImageExtension
  {
    assert "Bones" + GildedSuffix == "Bones (Gilded altar)";
    GildedSuffixStripped("Bones", GildedSuffix);
    EncodeKeepsSafeName("Bones");
  }

  /** Encoding works character by character, so it distributes over
      concatenation. */
  lemma {:induction false} EncodeAppend(a: string, b: string)
    ensures Encode(a + b) == Encode(a) + Encode(b)
    decreases |a|
  {
    if |a| > 0 {
      assert (a + b)[1..] == a[1..] + b;
      EncodeAppend(a[1..], b);
    } else {
      assert a + b == b;
    }
  }
}
