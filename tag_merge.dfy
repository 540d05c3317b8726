/**
  Order-preserving, de-duplicating tag merges: `merge_movie_tags`
  (scripts/imdb_handler.py) and the per-row loop of
  `merge_tags_to_movies_tags` (scripts/merge_tags.py), which puts the Douban
  genres first, then the translated IMDb tags, and joins the survivors with
  `/`.
*/
module TagMerge {
  import opened Common
  import opened PyStr
  import opened TagTranslation
  import opened Store

  predicate NoRepeats(s: seq<string>) {
    forall i, j | 0 <= i < j < |s| :: s[i] != s[j]
  }

  function Elems(s: seq<string>): set<string> {
    set t | t in s
  }

  /** The non-empty tags of `tags`, each kept at its first occurrence. */
  function Dedup(tags: seq<string>): (r: seq<string>)
    ensures NoRepeats(r)
    ensures forall t :: t in r <==> t in tags && t != ""
    ensures |r| <= |tags|
  {
    if |tags| == 0 then []
    else
      var init := tags[..|tags| - 1];
      var t := tags[|tags| - 1];
      assert tags == init + [t];
      var d := Dedup(init);
      if t == "" || t in d then d else d + [t]
  }

  /** The elements of `s` that do not occur in `avoid`, in order. */
  function Unseen(s: seq<string>, avoid: seq<string>): (r: seq<string>)
    ensures forall t :: t in r <==> t in s && t !in avoid
  {
    if |s| == 0 then []
    else
      var init := s[..|s| - 1];
      var t := s[|s| - 1];
      assert s == init + [t];
      Unseen(init, avoid) + (if t in avoid then [] else [t])
  }

  lemma DedupSnoc(s: seq<string>, x: string)
    ensures Dedup(s + [x]) == if x == "" || x in Dedup(s) then Dedup(s) else Dedup(s) + [x]
  {
    assert (s + [x])[..|s|] == s;
  }

  lemma UnseenSnoc(s: seq<string>, x: string, avoid: seq<string>)
    ensures Unseen(s + [x], avoid) == Unseen(s, avoid) + (if x in avoid then [] else [x])
  {
    assert (s + [x])[..|s|] == s;
  }

  /** Appending a list keeps the first list's survivors in front, followed by
      the survivors of the second list that the first did not already hold:
      earlier tags take precedence. */
  lemma {:induction false} DedupConcat(a: seq<string>, b: seq<string>)
    ensures Dedup(a + b) == Dedup(a) + Unseen(Dedup(b), a)
  {
    if |b| == 0 {
      assert a + b == a;
    } else {
      var init := b[..|b| - 1];
      var x := b[|b| - 1];
      assert b == init + [x];
      assert a + b == (a + init) + [x];
      DedupConcat(a, init);
      DedupConcatSnoc(a, init, x);
    }
  }

  /** The step of `DedupConcat`: one more tag at the end of the second list. */
  lemma DedupConcatSnoc(a: seq<string>, init: seq<string>, x: string)
    requires Dedup(a + init) == Dedup(a) + Unseen(Dedup(init), a)
    ensures Dedup((a + init) + [x]) == Dedup(a) + Unseen(Dedup(init + [x]), a)
  {
    if x == "" || x in Dedup(init) {
      DedupSnocSeen(a, init, x);
    } else {
      DedupSnocNew(a, init, x);
    }
  }

  /** An empty or repeated tag changes neither side. */
  lemma DedupSnocSeen(a: seq<string>, init: seq<string>, x: string)
    requires x == "" || x in Dedup(init)
    ensures Dedup((a + init) + [x]) == Dedup(a + init)
    ensures Dedup(init + [x]) == Dedup(init)
  {
    DedupSnoc(init, x);
    DedupSnoc(a + init, x);
    if x != "" {
      assert x in a + init;
    }
  }

  /** A tag new to the second list is appended unless the first list has it. */
  lemma DedupSnocNew(a: seq<string>, init: seq<string>, x: string)
    requires Dedup(a + init) == Dedup(a) + Unseen(Dedup(init), a)
    requires x != "" && x !in Dedup(init)
    ensures Dedup((a + init) + [x]) == Dedup(a) + Unseen(Dedup(init + [x]), a)
  {
    NewTagLeft(a, init, x);
    NewTagRight(a, init, x);
    AppendBoth(Dedup(a + init), Dedup((a + init) + [x]), Dedup(a),
      Unseen(Dedup(init), a), Unseen(Dedup(init + [x]), a), x, x in a);
  }

  /** Appending `x` (or nothing) to both a list and the tail it ends with. */
  lemma AppendBoth<T>(whole: seq<T>, whole': seq<T>, head: seq<T>, tail: seq<T>, tail': seq<T>, x: T, skip: bool)
    requires whole == head + tail
    requires whole' == if skip then whole else whole + [x]
    requires tail' == tail + if skip then [] else [x]
    ensures whole' == head + tail'
  {
    if !skip {
      SeqAssoc(head, tail, [x]);
    }
  }

  lemma NewTagLeft(a: seq<string>, init: seq<string>, x: string)
    requires x != "" && x !in init
    ensures Dedup((a + init) + [x]) == if x in a then Dedup(a + init) else Dedup(a + init) + [x]
  {
    DedupSnoc(a + init, x);
    if x in a {
      assert x in a + init;
    } else {
      assert x !in a + init;
    }
  }

  lemma NewTagRight(a: seq<string>, init: seq<string>, x: string)
    requires x != "" && x !in Dedup(init)
    ensures Unseen(Dedup(init + [x]), a) == Unseen(Dedup(init), a) + (if x in a then [] else [x])
  {
    DedupSnoc(init, x);
    UnseenSnoc(Dedup(init), x, a);
  }

  lemma SeqAssoc<T>(p: seq<T>, q: seq<T>, r: seq<T>)
    ensures p + (q + r) == (p + q) + r
  {
  }

  /** A list with no empty tag and no repeat is its own de-duplication. */
  lemma {:induction false} DedupOfDistinct(s: seq<string>)
    requires NoRepeats(s) && "" !in s
    ensures Dedup(s) == s
  {
    if |s| > 0 {
      var init := s[..|s| - 1];
      assert s == init + [s[|s| - 1]];
      assert NoRepeats(init);
      DedupOfDistinct(init);
    }
  }

  /** Merging an already merged list changes nothing. */
  lemma DedupIdempotent(tags: seq<string>)
    ensures Dedup(Dedup(tags)) == Dedup(tags)
  {
    DedupOfDistinct(Dedup(tags));
  }

  /** Empty tags never matter: an empty tag anywhere in the input leaves the
      merge as it is without it. */
  lemma {:induction false} DedupIgnoresEmpty(a: seq<string>, b: seq<string>)
    ensures Dedup(a + [""] + b) == Dedup(a + b)
  {
    if |b| == 0 {
      assert a + [""] + b == a + [""] && a + b == a;
      DedupSnoc(a, "");
    } else {
      var init, x := b[..|b| - 1], b[|b| - 1];
      DedupIgnoresEmpty(a, init);
      assert a + [""] + b == (a + [""] + init) + [x];
      assert a + b == (a + init) + [x];
      DedupSnoc(a + [""] + init, x);
      DedupSnoc(a + init, x);
    }
  }

  /** The `for tag in ...: if tag and tag not in seen` loop shared by both
      merges: appends the new non-empty tags of `tags`, tracking them in
      `seen`. */
  method AppendUnseen(ghost before: seq<string>, unique: seq<string>, seen: set<string>, tags: seq<string>)
    returns (unique': seq<string>, seen': set<string>)
    requires unique == Dedup(before) && seen == Elems(unique)
    ensures unique' == Dedup(before + tags) && seen' == Elems(unique')
  {
    unique', seen' := unique, seen;
    assert before + tags[..0] == before;
    for i := 0 to |tags|
      invariant unique' == Dedup(before + tags[..i])
      invariant seen' == Elems(unique')
    {
      assert before + tags[..i + 1] == (before + tags[..i]) + [tags[i]];
      unique', seen' := AddUnseen(before + tags[..i], unique', seen', tags[i]);
    }
    assert tags[..|tags|] == tags;
  }

  /** One turn of that loop: a new non-empty tag is appended and marked
      seen. */
  method AddUnseen(ghost before: seq<string>, unique: seq<string>, seen: set<string>, tag: string)
    returns (unique': seq<string>, seen': set<string>)
    requires unique == Dedup(before) && seen == Elems(unique)
    ensures unique' == Dedup(before + [tag]) && seen' == Elems(unique')
  {
    DedupSnoc(before, tag);
    unique', seen' := unique, seen;
    if tag != "" && tag !in seen {
      unique' := unique + [tag];
      seen' := seen + {tag};
    }
  }

  /** `merge_movie_tags(genres_list, imdb_tags_list)`: the genres, then the
      IMDb tags, empty tags and repeats dropped, joined with `/`. A `None`
      list behaves as the empty list. */
  method MergeMovieTags(genres: seq<string>, imdbTags: seq<string>) returns (merged: string)
    ensures merged == Join(Dedup(genres + imdbTags), "/")
  {
    if |genres| == 0 && |imdbTags| == 0 {
      return "";
    }
    var allTags, seen := AppendUnseen([], [], {}, genres);
    assert [] + genres == genres;
    allTags, seen := AppendUnseen(genres, allTags, seen, imdbTags);
    merged := if |allTags| > 0 then Join(allTags, "/") else "";
  }

  /** Genres first and the first occurrence wins: the documented example. */
  lemma MergeExample()
    ensures Join(Dedup(["动作", "冒险"] + ["科幻", "动作"]), "/") == "动作/冒险/科幻"
  {
    var d := ["动作", "冒险", "科幻"];
    MergeExampleDedup();
    MergeExampleJoin();
  }

  lemma MergeExampleDedup()
    ensures Dedup(["动作", "冒险"] + ["科幻", "动作"]) == ["动作", "冒险", "科幻"]
  {
    var d := ["动作", "冒险", "科幻"];
    assert ["动作", "冒险"] + ["科幻", "动作"] == d + ["动作"];
    DedupOfDistinct(d);
    DedupSnoc(d, "动作");
  }

  lemma MergeExampleJoin()
    ensures Join(["动作", "冒险", "科幻"], "/") == "动作/冒险/科幻"
  {
    assert Join(["动作", "冒险", "科幻"], "/") == "动作" + "/" + ("冒险" + "/" + "科幻");
  }

  /** `[tr(t) ...]` flattened in order. In the scripts `tr` is always
      `translate_imdb_tag` (`Translate`); keeping it a parameter lets the
      loops below be checked without unfolding the dictionary. */
  function TranslateAll(tr: string -> seq<string>, tags: seq<string>): seq<string> {
    if |tags| == 0 then []
    else TranslateAll(tr, tags[..|tags| - 1]) + tr(tags[|tags| - 1])
  }

  /** Each translated tag comes from translating one of the inputs. */
  lemma {:induction false} TranslateAllFrom(tr: string -> seq<string>, tags: seq<string>)
    ensures forall t <- TranslateAll(tr, tags) :: exists x <- tags :: t in tr(x)
  {
    if |tags| > 0 {
      var init := tags[..|tags| - 1];
      var x := tags[|tags| - 1];
      assert tags == init + [x];
      TranslateAllFrom(tr, init);
      forall t <- TranslateAll(tr, tags) ensures exists y <- tags :: t in tr(y) {
        if t in TranslateAll(tr, init) {
          var y :| y in init && t in tr(y);
          assert y in tags;
        } else {
          assert t in tr(x);
        }
      }
    }
  }

  /** Translating separator-free tags gives separator-free tags. */
  lemma {:induction false} TranslateAllUnseparated(tags: seq<string>)
    requires forall x <- tags :: Unseparated(x)
    ensures forall t <- TranslateAll(Translate, tags) :: Unseparated(t)
  {
    if |tags| > 0 {
      var init := tags[..|tags| - 1];
      var x := tags[|tags| - 1];
      assert tags == init + [x];
      TranslateAllUnseparated(init);
      TranslateClosed(x);
    }
  }

  /** The comma-separated pieces of a cell, as `merge_tags_to_movies_tags`
      reads it: nothing for a missing or blank cell, otherwise the stripped
      non-empty pieces of the stripped text. */
  function CellPieces(cell: Option<string>): seq<string> {
    match cell
    case None => []
    case Some(s) =>
      var stripped := Trim(s);
      if stripped == "" then [] else Pieces(stripped, ',')
  }

  /** The merged tag list of one row: genres first, then the translations of
      the IMDb tags, repeats dropped. */
  function RowTagList(tr: string -> seq<string>, genres: Option<string>, imdbTags: Option<string>): seq<string> {
    Dedup(CellPieces(genres) + TranslateAll(tr, CellPieces(imdbTags)))
  }

  /** The `tags` cell the row merge writes. */
  function RowTags(tr: string -> seq<string>, genres: Option<string>, imdbTags: Option<string>): string {
    Join(RowTagList(tr, genres, imdbTags), "/")
  }

  /** The row's tag list has no repeat, holds every genre piece, lists the
      genres before the IMDb-derived tags, and every other tag is the
      translation of one of the row's IMDb tags. */
  lemma RowTagListShape(tr: string -> seq<string>, genres: Option<string>, imdbTags: Option<string>)
    ensures NoRepeats(RowTagList(tr, genres, imdbTags))
    ensures forall g <- CellPieces(genres) :: g in RowTagList(tr, genres, imdbTags)
    ensures RowTagList(tr, genres, imdbTags)
      == Dedup(CellPieces(genres)) + Unseen(Dedup(TranslateAll(tr, CellPieces(imdbTags))), CellPieces(genres))
    ensures forall t <- RowTagList(tr, genres, imdbTags) ::
      t in CellPieces(genres) || exists x <- CellPieces(imdbTags) :: t in tr(x)
  {
    DedupConcat(CellPieces(genres), TranslateAll(tr, CellPieces(imdbTags)));
    TranslateAllFrom(tr, CellPieces(imdbTags));
  }

  /** The pieces of a cell free of `/` are free of both separators. */
  lemma CellPiecesUnseparated(cell: Option<string>)
    requires cell.Some? ==> '/' !in cell.value
    ensures forall p <- CellPieces(cell) :: Unseparated(p)
  {
    if cell.Some? && Trim(cell.value) != "" {
      var s := Trim(cell.value);
      TrimSpec(cell.value);
      SplitAvoids(s, ',', '/');
      PiecesFree(Split(s, ','), '/');
    }
  }

  /** When neither cell contains `/`, splitting the written `tags` cell on
      `/` gives back exactly the merged list. */
  lemma RowTagsSplit(genres: Option<string>, imdbTags: Option<string>)
    requires genres.Some? ==> '/' !in genres.value
    requires imdbTags.Some? ==> '/' !in imdbTags.value
    requires RowTagList(Translate, genres, imdbTags) != []
    ensures Split(RowTags(Translate, genres, imdbTags), '/') == RowTagList(Translate, genres, imdbTags)
  {
    CellPiecesUnseparated(genres);
    CellPiecesUnseparated(imdbTags);
    TranslateAllUnseparated(CellPieces(imdbTags));
    SplitJoin(RowTagList(Translate, genres, imdbTags), '/');
  }

  /** The translation loop: each tag's translation is appended in turn. */
  method TranslateTags(tr: string -> seq<string>, tags: seq<string>) returns (translated: seq<string>)
    ensures translated == TranslateAll(tr, tags)
  {
    translated := [];
    for i := 0 to |tags|
      invariant translated == TranslateAll(tr, tags[..i])
    {
      assert tags[..i + 1][..i] == tags[..i];
      var t := tr(tags[i]);
      if t != [] {
        translated := translated + t;
      }
    }
    assert tags[..|tags|] == tags;
  }

  /** `merge_tags_to_movies_tags` writing one row. */
  method MergeRowTags(tr: string -> seq<string>, genres: Option<string>, imdbTags: Option<string>)
    returns (tags: string)
    ensures tags == RowTags(tr, genres, imdbTags)
  {
    var translated := TranslateTags(tr, CellPieces(imdbTags));
    var allTags := CellPieces(genres) + translated;
    var unique, seen := AppendUnseen([], [], {}, allTags);
    assert [] + allTags == allTags;
    tags := if |unique| > 0 then Join(unique, "/") else "";
  }

  /** The row merge as a function of a row's `genres` and `imdb_tags` cells. */
  function Tagger(tr: string -> seq<string>): (Option<string>, Option<string>) -> string {
    (genres, imdbTags) => RowTags(tr, genres, imdbTags)
  }

  /** A row with its `tags` cell recomputed by `tagger`. */
  function WithTags(tagger: (Option<string>, Option<string>) -> string, m: Movie): Movie {
    m.(tags := Some(tagger(m.genres, m.imdbTags)))
  }

  /** Running the merge again changes nothing: the value is recomputed from
      the genres and IMDb tags only, and no other cell is touched. */
  lemma WithTagsIdempotent(tagger: (Option<string>, Option<string>) -> string, m: Movie)
    ensures WithTags(tagger, WithTags(tagger, m)) == WithTags(tagger, m)
    ensures WithTags(tagger, m).(tags := m.tags) == m
  {
  }

  /** The whole table with every row's `tags` recomputed. */
  function MergedRows(tagger: (Option<string>, Option<string>) -> string, rows: seq<Movie>): (r: seq<Movie>)
    ensures |r| == |rows|
    ensures forall i | 0 <= i < |rows| :: r[i] == WithTags(tagger, rows[i])
  {
    if |rows| == 0 then []
    else MergedRows(tagger, rows[..|rows| - 1]) + [WithTags(tagger, rows[|rows| - 1])]
  }

  /** `merge_tags_to_movies_tags` on one row. */
  method MergeRow(tr: string -> seq<string>, m: Movie) returns (r: Movie)
    ensures r == WithTags(Tagger(tr), m)
  {
    var tags := MergeRowTags(tr, m.genres, m.imdbTags);
    r := m.(tags := Some(tags));
  }

  method MergeAllRowsWith(rows: array<Movie>, tr: string -> seq<string>)
    modifies rows
    ensures rows[..] == MergedRows(Tagger(tr), old(rows[..]))
  {
    ghost var before := rows[..];
    for i := 0 to rows.Length
      invariant rows[..] == MergedRows(Tagger(tr), before[..i]) + before[i..]
    {
      MergeAt(rows, i, tr, before);
    }
    assert before[..rows.Length] == before;
    assert rows[..] == MergedRows(Tagger(tr), before) + [];
  }

  /** One turn of the row loop: row `i` gets its merged tags. */
  method MergeAt(rows: array<Movie>, i: nat, tr: string -> seq<string>, ghost before: seq<Movie>)
    requires i < rows.Length == |before|
    requires rows[..] == MergedRows(Tagger(tr), before[..i]) + before[i..]
    modifies rows
    ensures rows[..] == MergedRows(Tagger(tr), before[..i + 1]) + before[i + 1..]
  {
    ghost var done := MergedRows(Tagger(tr), before[..i]);
    ghost var current := rows[..];
    assert rows[i] == before[i];
    var m := MergeRow(tr, rows[i]);
    MergedRowsSnoc(Tagger(tr), before, i);
    rows[i] := m;
    assert rows[..] == current[i := m];
    Splice(done, before[i..], m);
    assert before[i..][1..] == before[i + 1..];
  }

  /** Overwriting the first element after a prefix. */
  lemma Splice<T>(done: seq<T>, rest: seq<T>, x: T)
    requires |rest| > 0
    ensures (done + rest)[|done| := x] == (done + [x]) + rest[1..]
  {
  }

  /** Merging one more row appends that row, merged. */
  lemma MergedRowsSnoc(tagger: (Option<string>, Option<string>) -> string, rows: seq<Movie>, i: nat)
    requires i < |rows|
    ensures MergedRows(tagger, rows[..i + 1]) == MergedRows(tagger, rows[..i]) + [WithTags(tagger, rows[i])]
  {
    assert rows[..i + 1][..i] == rows[..i];
  }

  /** The row loop of `merge_tags_to_movies_tags`, writing `tags` in place. */
  method MergeAllRows(rows: array<Movie>)
    modifies rows
    ensures rows[..] == MergedRows(Tagger(Translate), old(rows[..]))
  {
    MergeAllRowsWith(rows, Translate);
  }
}
