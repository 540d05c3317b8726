/**
  The two versions of `get_imdb_tags`: the one in scripts/imdb_handler.py,
  used by the enrichment loop, and the one in scripts/utils.py. Both
  normalise the IMDb id, read the interest chips of the title page, drop
  `Drama` and language names, keep each chip once in page order and join the
  survivors with `", "`. The request and the DOM search are inputs: the page
  is given as its status and the texts of the chip spans found.
*/
module ImdbTags {
  import opened Common
  import opened PyStr
  import opened TagTranslation
  import opened TagMerge

  /** A fetched title page: its HTTP status and the texts of its chip spans. */
  datatype Page = Page(status: int, chips: seq<string>)

  /** `str(imdb_id).strip()`, with `tt` put in front unless already there. */
  function NormalizeId(id: string): string {
    var s := Trim(id);
    if StartsWith(s, "tt") then s else "tt" + s
  }

  /** A normalised id starts with `tt`, ends with the stripped input, and
      normalising it again changes nothing. */
  lemma NormalizeIdSpec(id: string)
    ensures StartsWith(NormalizeId(id), "tt")
    ensures EndsWith(NormalizeId(id), Trim(id))
    ensures NormalizeId(NormalizeId(id)) == NormalizeId(id)
  {
    var s := Trim(id);
    var r := NormalizeId(id);
    TrimSpec(id);
    if !StartsWith(s, "tt") {
      assert r[..2] == "tt";
      assert r[|r| - |s|..] == s;
      assert Stripped(r) by {
        assert r[0] == 't';
        if |s| > 0 {
          assert r[|r| - 1] == s[|s| - 1];
        }
      }
    }
    TrimOfTrimmed(r);
  }

  /** The title page requested for an id. */
  function TitleUrl(id: string): string {
    "https://www.imdb.com/title/" + NormalizeId(id) + "/"
  }

  /** The ten language names scripts/imdb_handler.py drops. */
  const HandlerLanguages: set<string> := {
      "English", "Spanish", "French", "German", "Italian", "Japanese",
      "Chinese", "Korean", "Russian", "Hindi"
    }

  /** `span.get_text(strip=True)` for each chip span, in page order. */
  function ChipTexts(chips: seq<string>): seq<string> {
    if |chips| == 0 then []
    else ChipTexts(chips[..|chips| - 1]) + [Trim(chips[|chips| - 1])]
  }

  /** The tags of `tags` outside `excluded`, in order. */
  function Without(tags: seq<string>, excluded: set<string>): (r: seq<string>)
    ensures forall t :: t in r <==> t in tags && t !in excluded
    ensures |r| <= |tags|
  {
    if |tags| == 0 then []
    else
      var t := tags[|tags| - 1];
      assert tags == tags[..|tags| - 1] + [t];
      Without(tags[..|tags| - 1], excluded) + (if t in excluded then [] else [t])
  }

  lemma WithoutSnoc(tags: seq<string>, x: string, excluded: set<string>)
    ensures Without(tags + [x], excluded) == Without(tags, excluded) + (if x in excluded then [] else [x])
  {
    assert (tags + [x])[..|tags|] == tags;
  }

  /** De-duplicating and dropping excluded tags commute, so scripts/imdb_handler.py
      (de-duplicate, then filter) and scripts/utils.py (filter while
      de-duplicating) keep the same order. */
  lemma {:induction false} DedupWithout(s: seq<string>, excluded: set<string>)
    ensures Dedup(Without(s, excluded)) == Without(Dedup(s), excluded)
  {
    if |s| > 0 {
      var init := s[..|s| - 1];
      var x := s[|s| - 1];
      assert s == init + [x];
      DedupWithout(init, excluded);
      WithoutSnoc(init, x, excluded);
      DedupSnoc(init, x);
      var d := Dedup(init);
      var w := Without(init, excluded);
      if x in excluded {
        assert Without(s, excluded) == w + [];
        assert w + [] == w;
        if x != "" && x !in d {
          WithoutSnoc(d, x, excluded);
          assert d + [x] + [] == d + [x];
        }
      } else {
        DedupSnoc(w, x);
        assert x in Dedup(w) <==> x in d;
        if x != "" && x !in d {
          WithoutSnoc(d, x, excluded);
        }
      }
    }
  }

  /** Filtering twice drops the union of what each filter drops. */
  lemma {:induction false} WithoutWithout(s: seq<string>, a: set<string>, b: set<string>)
    ensures Without(Without(s, a), b) == Without(s, a + b)
  {
    if |s| > 0 {
      var init := s[..|s| - 1];
      var x := s[|s| - 1];
      assert s == init + [x];
      WithoutWithout(init, a, b);
      WithoutSnoc(init, x, a);
      WithoutSnoc(init, x, a + b);
      if x in a {
        assert Without(init, a) + [] == Without(init, a);
        assert Without(init, a + b) + [] == Without(init, a + b);
      } else {
        WithoutSnoc(Without(init, a), x, b);
      }
    }
  }

  /** `", ".join(tags) if tags else ""`. */
  function CommaJoined(tags: seq<string>): string {
    if |tags| > 0 then Join(tags, ", ") else ""
  }

  /** A join of non-empty tags is empty exactly when there are none. */
  lemma {:induction false} CommaJoinedEmpty(tags: seq<string>)
    requires "" !in tags
    ensures CommaJoined(tags) == "" <==> tags == []
  {
    if |tags| > 1 {
      assert tags[0] != "";
    } else if |tags| == 1 {
      assert tags[0] in tags;
    }
  }

  // ---- scripts/imdb_handler.py ----

  /** What scripts/imdb_handler.py drops: its ten languages and `Drama`. */
  function HandlerExcluded(): set<string> {
    HandlerLanguages + {"Drama"}
  }

  /** The chips scripts/imdb_handler.py keeps: the non-empty chip texts, each
      at its first occurrence, without `Drama` and the ten languages. */
  function HandlerTags(chips: seq<string>): seq<string> {
    Without(Dedup(ChipTexts(chips)), HandlerExcluded())
  }

  /** The kept chips are exactly the non-empty chip texts outside the excluded
      names, each once, in page order of first appearance. */
  lemma HandlerTagsSpec(chips: seq<string>)
    ensures NoRepeats(HandlerTags(chips))
    ensures forall t :: t in HandlerTags(chips) <==>
      t in ChipTexts(chips) && t != "" && t != "Drama" && t !in HandlerLanguages
    ensures HandlerTags(chips) == Dedup(Without(ChipTexts(chips), HandlerExcluded()))
  {
    DedupWithout(ChipTexts(chips), HandlerExcluded());
  }

  /** The result of `get_imdb_tags` in scripts/imdb_handler.py: `""` for a
      falsy id, a failed request or a non-200 page, else the joined chips. */
  function HandlerResult(id: Option<string>, response: Call<Page>): string {
    if id.None? || id.value == "" then ""
    else match response
      case Raised => ""
      case Returned(page) => if page.status != 200 then "" else CommaJoined(HandlerTags(page.chips))
  }

  /** The result is empty exactly when there is no id, the request failed, the
      page is not a 200, or no chip survives. */
  lemma HandlerResultEmpty(id: Option<string>, response: Call<Page>)
    ensures HandlerResult(id, response) == "" <==>
      id.None? || id.value == "" || response.Raised? || response.value.status != 200
      || HandlerTags(response.value.chips) == []
  {
    if response.Returned? {
      HandlerTagsSpec(response.value.chips);
      CommaJoinedEmpty(HandlerTags(response.value.chips));
    }
  }

  /** The chip loop: each stripped, non-empty text not seen before is kept. */
  method CollectChips(chips: seq<string>) returns (tags: seq<string>)
    ensures tags == Dedup(ChipTexts(chips))
  {
    tags := [];
    for i := 0 to |chips|
      invariant tags == Dedup(ChipTexts(chips[..i]))
    {
      var text := Trim(chips[i]);
      assert ChipTexts(chips[..i + 1]) == ChipTexts(chips[..i]) + [text] by {
        assert chips[..i + 1][..i] == chips[..i];
      }
      DedupSnoc(ChipTexts(chips[..i]), text);
      if text != "" && text !in tags {
        tags := tags + [text];
      }
    }
    assert chips[..|chips|] == chips;
  }

  /** The filter loop: language names and `Drama` are skipped. The language
      list is a parameter so that the loop is checked without unfolding it;
      the source passes `HandlerLanguages`. */
  method DropExcluded(tags: seq<string>, languages: set<string>) returns (filtered: seq<string>)
    ensures filtered == Without(tags, languages + {"Drama"})
  {
    filtered := [];
    for i := 0 to |tags|
      invariant filtered == Without(tags[..i], languages + {"Drama"})
    {
      assert tags[..i + 1] == tags[..i] + [tags[i]];
      filtered := KeepUnlessExcluded(tags[..i], filtered, tags[i], languages);
    }
    assert tags[..|tags|] == tags;
  }

  /** One turn of the filter loop. */
  method KeepUnlessExcluded(ghost done: seq<string>, filtered: seq<string>, tag: string, languages: set<string>)
    returns (filtered': seq<string>)
    requires filtered == Without(done, languages + {"Drama"})
    ensures filtered' == Without(done + [tag], languages + {"Drama"})
  {
    WithoutSnoc(done, tag, languages + {"Drama"});
    if tag in languages || tag == "Drama" {
      return filtered;
    }
    filtered' := filtered + [tag];
  }

  /** `get_imdb_tags(imdb_id)` of scripts/imdb_handler.py; `response` is what
      the request for `TitleUrl(id)` gives, `Raised` standing for any
      exception. */
  method HandlerGetImdbTags(id: Option<string>, response: Call<Page>) returns (r: string)
    ensures r == HandlerResult(id, response)
  {
    if id.None? || id.value == "" {
      return "";
    }
    var url := TitleUrl(id.value);
    if response.Raised? {
      return "";
    }
    var page := response.value;
    if page.status != 200 {
      return "";
    }
    var tags := CollectChips(page.chips);
    var filtered := DropExcluded(tags, HandlerLanguages);
    r := if |filtered| > 0 then Join(filtered, ", ") else "";
  }

  // ---- scripts/utils.py ----

  /** What scripts/utils.py drops: the 29 language names and `Drama`. */
  function UtilsExcluded(): set<string> {
    LanguageTags + {"Drama"}
  }

  /** The chips scripts/utils.py keeps. */
  function UtilsTags(chips: seq<string>): seq<string> {
    Dedup(Without(ChipTexts(chips), UtilsExcluded()))
  }

  /** The kept chips are exactly the non-empty chip texts outside the 29
      languages and `Drama`, each once. */
  lemma UtilsTagsSpec(chips: seq<string>)
    ensures NoRepeats(UtilsTags(chips))
    ensures forall t :: t in UtilsTags(chips) <==>
      t in ChipTexts(chips) && t != "" && t != "Drama" && t !in LanguageTags
  {
  }

  /** Where the two versions part: the utils version keeps what the handler
      version keeps, minus the other 19 language names. */
  lemma UtilsRefinesHandler(chips: seq<string>)
    ensures UtilsTags(chips) == Without(HandlerTags(chips), LanguageTags)
  {
    var texts := ChipTexts(chips);
    DedupWithout(texts, UtilsExcluded());
    WithoutWithout(Dedup(texts), HandlerExcluded(), LanguageTags);
    HandlerLanguagesListed();
    assert HandlerExcluded() + LanguageTags == UtilsExcluded();
  }

  /** The ten languages of scripts/imdb_handler.py are among the 29. */
  lemma HandlerLanguagesListed()
    ensures HandlerLanguages <= LanguageTags
  {
  }

  /** The result of `get_imdb_tags` in scripts/utils.py: `None` for a missing
      or empty id, a failed request, a non-200 page or no surviving chip. */
  function UtilsResult(id: Option<string>, response: Call<Page>): Option<string> {
    if id.None? || id.value == "" then None
    else match response
      case Raised => None
      case Returned(page) =>
        if page.status != 200 || UtilsTags(page.chips) == [] then None
        else Some(Join(UtilsTags(page.chips), ", "))
  }

  /** A result, when there is one, is a non-empty join. */
  lemma UtilsResultNonEmpty(id: Option<string>, response: Call<Page>)
    ensures UtilsResult(id, response).Some? ==> UtilsResult(id, response).value != ""
    ensures UtilsResult(id, response).Some? <==>
      id.Some? && id.value != "" && response.Returned? && response.value.status == 200
      && UtilsTags(response.value.chips) != []
  {
    if response.Returned? && UtilsTags(response.value.chips) != [] {
      CommaJoinedEmpty(UtilsTags(response.value.chips));
    }
  }

  /** One more chip extends the kept list by its text exactly when the text
      is non-empty, not excluded and not yet kept. */
  lemma UtilsChipStep(chips: seq<string>, i: nat, languages: set<string>)
    requires i < |chips|
    ensures var d := Dedup(Without(ChipTexts(chips[..i]), languages + {"Drama"}));
      var text := Trim(chips[i]);
      Dedup(Without(ChipTexts(chips[..i + 1]), languages + {"Drama"}))
        == if text != "" && text != "Drama" && text !in languages && text !in d then d + [text] else d
  {
    var text := Trim(chips[i]);
    var before := ChipTexts(chips[..i]);
    assert chips[..i + 1][..i] == chips[..i];
    assert ChipTexts(chips[..i + 1]) == before + [text];
    WithoutSnoc(before, text, languages + {"Drama"});
    if text in languages + {"Drama"} {
      assert Without(before, languages + {"Drama"}) + [] == Without(before, languages + {"Drama"});
    } else {
      DedupSnoc(Without(before, languages + {"Drama"}), text);
    }
  }

  /** The chip loop of scripts/utils.py: the filter and the repeat check in
      one pass. The source passes the 29 `LanguageTags` as `languages`. */
  method CollectUtilsChips(chips: seq<string>, languages: set<string>) returns (tags: seq<string>)
    ensures tags == Dedup(Without(ChipTexts(chips), languages + {"Drama"}))
  {
    tags := [];
    for i := 0 to |chips|
      invariant tags == Dedup(Without(ChipTexts(chips[..i]), languages + {"Drama"}))
    {
      UtilsChipStep(chips, i, languages);
      var text := Trim(chips[i]);
      if text != "" && text != "Drama" && text !in languages && text !in tags {
        tags := tags + [text];
      }
    }
    assert chips[..|chips|] == chips;
  }

  /** `get_imdb_tags(imdb_id)` of scripts/utils.py. */
  method UtilsGetImdbTags(id: Option<string>, response: Call<Page>) returns (r: Option<string>)
    ensures r == UtilsResult(id, response)
  {
    if id.None? || id.value == "" {
      return None;
    }
    var url := TitleUrl(id.value);
    if response.Raised? {
      return None;
    }
    var page := response.value;
    if page.status != 200 {
      return None;
    }
    var tags := CollectUtilsChips(page.chips, LanguageTags);
    DedupIdempotent(Without(ChipTexts(page.chips), UtilsExcluded()));
    tags := Dedup(tags);
    r := if |tags| > 0 then Some(Join(tags, ", ")) else None;
  }
}
