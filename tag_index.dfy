/**
  The tag index built from the `tags` cells: under every tag, the rows that
  carry it, in row order. `merge_tags_to_movies_tags` files movie ids
  (scripts/merge_tags.py:276-294) and `get_tag_movies_mapping` files movie
  summaries (scripts/data_handler.py:163-202); both split the cell on `/`,
  strip each segment and skip the empty ones.
*/
module TagIndex {
  import opened Common
  import opened PyStr
  import opened Store
  import opened TagTranslation
  import opened TagMerge

  /** One row as the index sees it: its tag segments and what is filed
      under them. */
  datatype Entry<P> = Entry(tags: seq<string>, payload: P)

  /** The tags of a `tags` cell: its non-blank, stripped `/`-segments; a
      NaN or empty cell has none. */
  function CellTags(cell: Option<string>): seq<string> {
    match cell
    case None => []
    case Some(s) => Pieces(s, '/')
  }

  /** How often `t` occurs in `s`. */
  function Count(s: seq<string>, t: string): (n: nat)
    ensures n <= |s|
    ensures n > 0 <==> t in s
  {
    if |s| == 0 then 0
    else Count(s[..|s| - 1], t) + (if s[|s| - 1] == t then 1 else 0)
  }

  /** In a list without repeats a tag occurs at most once. */
  lemma {:induction false} CountDistinct(s: seq<string>, t: string)
    requires NoRepeats(s)
    ensures Count(s, t) == if t in s then 1 else 0
  {
    if |s| > 0 {
      var init := s[..|s| - 1];
      assert NoRepeats(init);
      CountDistinct(init, t);
      if s[|s| - 1] == t {
        assert t !in init;
      }
    }
  }

  function Repeat<P>(x: P, n: nat): (r: seq<P>)
    ensures |r| == n
    ensures forall i | 0 <= i < n :: r[i] == x
  {
    if n == 0 then [] else Repeat(x, n - 1) + [x]
  }

  /** The list filed under `t`: each entry's payload once per occurrence of
      `t` among its tags, entries in order. */
  function Postings<P>(es: seq<Entry<P>>, t: string): seq<P> {
    if |es| == 0 then []
    else Postings(es[..|es| - 1], t) + Repeat(es[|es| - 1].payload, Count(es[|es| - 1].tags, t))
  }

  /** The payloads of the entries that carry `t`, in entry order: a reference
      definition of the index that does not count occurrences. */
  function Carrying<P>(es: seq<Entry<P>>, t: string): seq<P> {
    if |es| == 0 then []
    else Carrying(es[..|es| - 1], t) + (if t in es[|es| - 1].tags then [es[|es| - 1].payload] else [])
  }

  /** Something is filed under `t` exactly when it is the payload of an entry
      that carries `t`. */
  lemma {:induction false} PostingsMember<P>(es: seq<Entry<P>>, t: string, x: P)
    ensures x in Postings(es, t) <==> exists k | 0 <= k < |es| :: es[k].payload == x && t in es[k].tags
  {
    if |es| > 0 {
      var init := es[..|es| - 1];
      PostingsMember(init, t, x);
      assert forall k | 0 <= k < |init| :: init[k] == es[k];
    }
  }

  /** A tag has a list exactly when some entry carries it. */
  lemma {:induction false} PostingsEmpty<P>(es: seq<Entry<P>>, t: string)
    ensures Postings(es, t) == [] <==> forall k | 0 <= k < |es| :: t !in es[k].tags
  {
    if |es| > 0 {
      var init := es[..|es| - 1];
      PostingsEmpty(init, t);
      assert forall k | 0 <= k < |es| - 1 :: init[k] == es[k];
    }
  }

  /** When no entry repeats a tag, every carrying entry is filed exactly
      once, in entry order. */
  lemma {:induction false} PostingsOfDistinct<P>(es: seq<Entry<P>>, t: string)
    requires forall k | 0 <= k < |es| :: NoRepeats(es[k].tags)
    ensures Postings(es, t) == Carrying(es, t)
  {
    if |es| > 0 {
      var init := es[..|es| - 1];
      assert forall k | 0 <= k < |init| :: init[k] == es[k];
      PostingsOfDistinct(init, t);
      CountDistinct(es[|es| - 1].tags, t);
    }
  }

  function Get<P>(index: map<string, seq<P>>, t: string): seq<P> {
    if t in index then index[t] else []
  }

  /** `index` with `p` appended under each of `tags` in turn, a list created
      on first use. */
  function Filed<P>(index: map<string, seq<P>>, tags: seq<string>, p: P): map<string, seq<P>> {
    if |tags| == 0 then index
    else
      var m := Filed(index, tags[..|tags| - 1], p);
      var t := tags[|tags| - 1];
      m[t := Get(m, t) + [p]]
  }

  /** Filing appends `p` under each tag once per occurrence and leaves every
      other list alone. */
  lemma {:induction false} FiledGet<P>(index: map<string, seq<P>>, tags: seq<string>, p: P, t: string)
    ensures Get(Filed(index, tags, p), t) == Get(index, t) + Repeat(p, Count(tags, t))
  {
    if |tags| > 0 {
      FiledGet(index, tags[..|tags| - 1], p, t);
    }
  }

  /** Filing creates no empty list. */
  lemma {:induction false} FiledKeys<P>(index: map<string, seq<P>>, tags: seq<string>, p: P)
    requires NoEmptyList(index)
    ensures NoEmptyList(Filed(index, tags, p))
  {
    if |tags| > 0 {
      FiledKeys(index, tags[..|tags| - 1], p);
    }
  }

  /** The index built entry by entry. */
  function Indexed<P>(es: seq<Entry<P>>): map<string, seq<P>> {
    if |es| == 0 then map[]
    else Filed(Indexed(es[..|es| - 1]), es[|es| - 1].tags, es[|es| - 1].payload)
  }

  /** No tag of the index has an empty list: a key is created only when
      something is filed under it. */
  ghost predicate NoEmptyList<P>(index: map<string, seq<P>>) {
    forall t | t in index :: index[t] != []
  }

  /** `index` files under every tag exactly the postings of `es`. */
  ghost predicate IndexOf<P>(index: map<string, seq<P>>, es: seq<Entry<P>>) {
    NoEmptyList(index) && forall t :: Get(index, t) == Postings(es, t)
  }

  /** Building the index entry by entry files under each tag its postings. */
  lemma {:induction false} IndexedIndexOf<P>(es: seq<Entry<P>>)
    ensures IndexOf(Indexed(es), es)
  {
    if |es| > 0 {
      var init := es[..|es| - 1];
      var e := es[|es| - 1];
      IndexedIndexOf(init);
      FiledKeys(Indexed(init), e.tags, e.payload);
      forall t ensures Get(Indexed(es), t) == Postings(es, t) {
        FiledGet(Indexed(init), e.tags, e.payload, t);
      }
    }
  }

  /** The keys of an index are exactly the tags some entry carries. */
  lemma IndexKeys<P>(index: map<string, seq<P>>, es: seq<Entry<P>>, t: string)
    requires IndexOf(index, es)
    ensures t in index <==> exists k | 0 <= k < |es| :: t in es[k].tags
  {
    PostingsEmpty(es, t);
  }

  /** Filing under the kept pieces of one more part adds at most its
      stripped text. */
  lemma FiledStep<P>(index: map<string, seq<P>>, parts: seq<string>, j: nat, p: P)
    requires j < |parts|
    ensures var m := Filed(index, KeepTrimmed(parts[..j]), p);
      var tag := Trim(parts[j]);
      Filed(index, KeepTrimmed(parts[..j + 1]), p) == if tag == "" then m else m[tag := Get(m, tag) + [p]]
  {
    var before := KeepTrimmed(parts[..j]);
    var tag := Trim(parts[j]);
    KeepTrimmedSnoc(parts[..j], parts[j]);
    assert parts[..j + 1] == parts[..j] + [parts[j]];
    if tag == "" {
      assert before + [] == before;
    } else {
      assert (before + [tag])[..|before|] == before;
    }
  }

  /** Creating an empty list on first use and appending to it is appending
      to the list the tag has, or to an empty one. */
  lemma AppendUnder<P>(m: map<string, seq<P>>, t: string, p: P)
    ensures var m1 := if t !in m then m[t := []] else m;
      m1[t := m1[t] + [p]] == m[t := Get(m, t) + [p]]
  {
    if t !in m {
      assert [] + [p] == [p];
    }
  }

  /** The inner loop of both mappings: each stripped, non-blank segment of
      `parts` gets `p` appended to its list, the list created on first use. */
  method AddPostings<P>(index: map<string, seq<P>>, parts: seq<string>, p: P)
    returns (r: map<string, seq<P>>)
    ensures r == Filed(index, KeepTrimmed(parts), p)
  {
    r := index;
    for j := 0 to |parts|
      invariant r == Filed(index, KeepTrimmed(parts[..j]), p)
    {
      FiledStep(index, parts, j, p);
      var tag := Trim(parts[j]);
      if tag != "" {
        AppendUnder(r, tag, p);
        if tag !in r {
          r := r[tag := []];
        }
        r := r[tag := r[tag] + [p]];
      }
    }
    assert parts[..|parts|] == parts;
  }

  /** The index entries of `merge_tags_to_movies_tags` with its `pd.isna`
      guard taking effect: rows with a present id, filed by id. As written, a
      NaN id is filed as `nan` instead (`IdEntriesAsWritten`). */
  function IdEntries(rows: seq<Movie>): seq<Entry<string>> {
    if |rows| == 0 then []
    else
      var m := rows[|rows| - 1];
      IdEntries(rows[..|rows| - 1])
        + (if m.id.Some? && m.id.value != "" then [Entry(CellTags(m.tags), m.id.value)] else [])
  }

  /** The tag -> movie ids mapping of `merge_tags_to_movies_tags`, with rows
      without an id skipped as the guard intends. */
  method TagIdIndex(rows: seq<Movie>) returns (index: map<string, seq<string>>)
    ensures index == Indexed(IdEntries(rows))
    ensures IndexOf(index, IdEntries(rows))
  {
    index := map[];
    for i := 0 to |rows|
      invariant index == Indexed(IdEntries(rows[..i]))
    {
      var m := rows[i];
      ghost var es := IdEntries(rows[..i]);
      assert rows[..i + 1] == rows[..i] + [m];
      assert rows[..i + 1][..i] == rows[..i];
      if m.id.Some? && m.id.value != "" {
        assert (es + [Entry(CellTags(m.tags), m.id.value)])[..|es|] == es;
        if m.tags.Some? && m.tags.value != "" {
          index := AddPostings(index, Split(m.tags.value, '/'), m.id.value);
        } else {
          assert CellTags(m.tags) == [] by {
            if m.tags.Some? {
              assert Split("", '/') == [""];
            }
          }
        }
      } else {
        assert es + [] == es;
      }
    }
    assert rows[..|rows|] == rows;
    IndexedIndexOf(IdEntries(rows));
  }

  /** Only rows with a present, non-empty id are filed, under that id: a NaN
      id is skipped, as the `pd.isna` guard intends. */
  lemma {:induction false} IdEntriesFromIds(rows: seq<Movie>)
    ensures forall k | 0 <= k < |IdEntries(rows)| ::
      IdEntries(rows)[k].payload != "" && exists j | 0 <= j < |rows| :: rows[j].id == Some(IdEntries(rows)[k].payload)
  {
    if |rows| > 0 {
      var init := rows[..|rows| - 1];
      IdEntriesFromIds(init);
      assert forall j | 0 <= j < |init| :: init[j] == rows[j];
    }
  }

  /** The id text `str(row.get('id', ''))` as the source computes it: a NaN
      cell prints as `nan`, which is non-empty, and `pd.isna` of a string is
      always false, so the NaN guard never fires. */
  function IdTextAsWritten(id: Option<string>): string {
    match id
    case None => "nan"
    case Some(s) => s
  }

  /** The entries the source as written files: every row whose id text is
      non-empty, NaN ids under `nan`. */
  function IdEntriesAsWritten(rows: seq<Movie>): seq<Entry<string>> {
    if |rows| == 0 then []
    else
      var m := rows[|rows| - 1];
      var id := IdTextAsWritten(m.id);
      IdEntriesAsWritten(rows[..|rows| - 1]) + (if id != "" then [Entry(CellTags(m.tags), id)] else [])
  }

  /** A row whose id cell is NaN is filed as the movie `nan` by the code as
      written, and not at all once the NaN guard takes effect. */
  lemma NanIdFiled(m: Movie)
    requires m.id.None? && m.tags == Some("动作")
    ensures Postings(IdEntriesAsWritten([m]), "动作") == ["nan"]
    ensures Postings(IdEntries([m]), "动作") == []
  {
    assert [m][..0] == [];
    SplitAbsent("动作", '/');
    TrimOfTrimmed("动作");
    assert CellTags(m.tags) == ["动作"];
    assert Count(["动作"], "动作") == 1 by {
      assert ["动作"][..0] == [];
    }
  }

  /** The translations of a row's IMDb tags are non-blank and stripped. The
      dictionary's values are so by inspection of the table, and a
      passed-through CJK tag is stripped; the model states it as a
      hypothesis rather than unfolding the table. Freedom from `/` is not
      part of it: it follows from `/`-free cells (`TranslateAllUnseparated`). */
  ghost predicate TidyTranslations(imdbTags: Option<string>) {
    forall t <- TranslateAll(Translate, CellPieces(imdbTags)) :: t != "" && Stripped(t)
  }

  /** The `tags` cell the row merge writes reads back, segment by segment,
      as the merged list. A `/` inside a genre or an IMDb-tags cell (a CJK
      tag such as `动作/冒险` passes through whole) would be split apart on
      reading, so both cells are `/`-free here. */
  lemma MergedTags(genres: Option<string>, imdbTags: Option<string>)
    requires genres.Some? ==> '/' !in genres.value
    requires imdbTags.Some? ==> '/' !in imdbTags.value
    requires TidyTranslations(imdbTags)
    ensures CellTags(Some(RowTags(Translate, genres, imdbTags))) == RowTagList(Translate, genres, imdbTags)
  {
    var l := RowTagList(Translate, genres, imdbTags);
    CellPiecesUnseparated(genres);
    CellPiecesUnseparated(imdbTags);
    TranslateAllUnseparated(CellPieces(imdbTags));
    assert forall t <- l :: t != "" && Stripped(t) && '/' !in t;
    if l != [] {
      SplitJoin(l, '/');
      KeepTrimmedOfStripped(l);
    } else {
      assert Split("", '/') == [""];
    }
  }

  /** Entries inherit their tags from the rows' `tags` cells. */
  lemma {:induction false} IdEntriesDistinct(rows: seq<Movie>)
    requires forall k | 0 <= k < |rows| :: NoRepeats(CellTags(rows[k].tags))
    ensures forall k | 0 <= k < |IdEntries(rows)| :: NoRepeats(IdEntries(rows)[k].tags)
  {
    if |rows| > 0 {
      var init := rows[..|rows| - 1];
      assert forall k | 0 <= k < |init| :: init[k] == rows[k];
      IdEntriesDistinct(init);
    }
  }

  /** The cells of a row that the merge reads are free of `/`. */
  predicate SlashFreeCells(m: Movie) {
    (m.genres.Some? ==> '/' !in m.genres.value) && (m.imdbTags.Some? ==> '/' !in m.imdbTags.value)
  }

  /** A merged row's `tags` cell lists each tag once. */
  lemma MergedRowDistinct(m: Movie)
    requires SlashFreeCells(m)
    requires TidyTranslations(m.imdbTags)
    ensures NoRepeats(CellTags(WithTags(Tagger(Translate), m).tags))
  {
    MergedTags(m.genres, m.imdbTags);
    RowTagListShape(Translate, m.genres, m.imdbTags);
  }

  /** Every entry filed from a merged table lists each tag once, so under
      every tag each such row's id appears once. */
  lemma MergedEntriesDistinct(rows: seq<Movie>)
    requires forall k | 0 <= k < |rows| :: SlashFreeCells(rows[k])
    requires forall k | 0 <= k < |rows| :: TidyTranslations(rows[k].imdbTags)
    ensures forall k | 0 <= k < |IdEntries(MergedRows(Tagger(Translate), rows))| ::
      NoRepeats(IdEntries(MergedRows(Tagger(Translate), rows))[k].tags)
  {
    var merged := MergedRows(Tagger(Translate), rows);
    forall k | 0 <= k < |merged| ensures NoRepeats(CellTags(merged[k].tags)) {
      MergedRowDistinct(rows[k]);
    }
    IdEntriesDistinct(merged);
  }

  /** On a merged table the id index lists, under each tag, the ids of the
      rows whose merged list carries it, once each and in row order. */
  lemma MergedIdIndex(rows: seq<Movie>, index: map<string, seq<string>>, t: string)
    requires forall k | 0 <= k < |rows| :: SlashFreeCells(rows[k])
    requires forall k | 0 <= k < |rows| :: TidyTranslations(rows[k].imdbTags)
    requires IndexOf(index, IdEntries(MergedRows(Tagger(Translate), rows)))
    ensures Get(index, t) == Carrying(IdEntries(MergedRows(Tagger(Translate), rows)), t)
  {
    MergedEntriesDistinct(rows);
    PostingsOfDistinct(IdEntries(MergedRows(Tagger(Translate), rows)), t);
  }
}
