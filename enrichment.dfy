/**
  The update-from-IMDb pass of app.py (`update_from_imdb`): it walks the
  movie table record by record, fills in missing genres and IMDb ids from the
  Douban detail page, fetches missing IMDb tags, merges genres and translated
  IMDb tags into a missing `tags` cell, and streams progress events.

  The two network calls are parameters: `detailOf` answers the detail fetch
  for a record's link, `tagPageOf` answers the IMDb page request for a
  record's IMDb id cell. A `Raised` detail answer is an exception inside the
  record's `try`.
*/
module Enrichment {
  import opened Common
  import opened PyStr
  import opened Store
  import opened TagTranslation
  import opened TagMerge
  import ImdbTags

  /** `pd.notna(v) and str(v).strip()` as a truth value. */
  predicate Present(cell: Option<string>) {
    cell.Some? && Trim(cell.value) != ""
  }

  /** The truth of `row.get('link', '')`: a NaN cell is a float, and truthy. */
  predicate LinkTruthy(link: Option<string>) {
    link.None? || link.value != ""
  }

  /** The truth of an optional string the detail fetch returns. */
  predicate Truthy(s: Option<string>) {
    s.Some? && s.value != ""
  }

  /** What the detail fetch returns: IMDb id, genre list, language, runtime
      in minutes. A missing value is `None` (the genre list: empty). */
  datatype DetailResult = DetailResult(
    imdbId: Option<string>,
    genres: seq<string>,
    language: Option<string>,
    runtime: Option<int>)

  /** How one record ends: skipped (nothing missing), updated (counted), or
      failed (an exception; not counted, the loop goes on). */
  datatype Fate = Skipped | Updated | Failed

  datatype Enriched = Enriched(row: Movie, fate: Fate)

  /** A record during the pass with the three flags the later phases read. */
  datatype Stage = Stage(row: Movie, hasGenres: bool, hasImdbId: bool, hasImdbTags: bool)

  /** One streamed event: a progress report, the closing summary, or a failure. */
  datatype Event =
    | Progress(processed: nat, total: nat, percentage: nat)
    | Finished(updated: nat, total: nat)
    | Failure

  /** The genres cell written from a genre list: `', '.join(genres)`. */
  function GenresCell(genres: seq<string>): string {
    Join(genres, ", ")
  }

  /** The detail phase applied to a returned detail: genres and IMDb id only
      where the record has none, language and runtime whenever truthy. */
  function DetailPhase(s: Stage, d: DetailResult): Stage {
    var fillGenres := d.genres != [] && !s.hasGenres;
    var m1 := if fillGenres then s.row.(genres := Some(GenresCell(d.genres))) else s.row;
    var m2 := if Truthy(d.language) then m1.(language := d.language) else m1;
    var m3 := if d.runtime.Some? && d.runtime.value != 0 then m2.(runtime := d.runtime) else m2;
    var fillId := Truthy(d.imdbId) && !s.hasImdbId;
    var m4 := if fillId then m3.(imdbId := d.imdbId) else m3;
    Stage(m4, s.hasGenres || fillGenres, s.hasImdbId || fillId, s.hasImdbTags)
  }

  /** The tag phase: with an IMDb id and no IMDb tags, ask the IMDb page for
      the tags of the id cell and keep a non-empty answer. */
  function TagPhase(s: Stage, tagPageOf: Option<string> -> Call<ImdbTags.Page>): Stage {
    if s.hasImdbId && !s.hasImdbTags then
      var t := ImdbTags.HandlerResult(s.row.imdbId, tagPageOf(s.row.imdbId));
      if t != "" then s.(row := s.row.(imdbTags := Some(t)), hasImdbTags := true) else s
    else s
  }

  /** `[g.strip() for g in str(genres).split(',')]` for a present cell, else
      nothing; blank pieces are kept. */
  function GenresList(cell: Option<string>): seq<string> {
    if Present(cell) then
      var ps := Split(cell.value, ',');
      seq(|ps|, i requires 0 <= i < |ps| => Trim(ps[i]))
    else []
  }

  /** The stripped non-blank pieces of a truthy, non-NaN IMDb tags cell. */
  function ImdbPieces(cell: Option<string>): seq<string> {
    if cell.Some? && cell.value != "" then Pieces(cell.value, ',') else []
  }

  /** The merged tag text of a record: genres, then translated IMDb tags,
      repeats and blanks dropped, joined with `/`. */
  function MergedText(tr: string -> seq<string>, m: Movie): string {
    Join(Dedup(GenresList(m.genres) + TranslateAll(tr, ImdbPieces(m.imdbTags))), "/")
  }

  /** The merge phase: with genres or IMDb tags and no tags, write a non-empty
      merge with every ", " turned into "/". */
  function MergePhase(tr: string -> seq<string>, s: Stage, hasTags: bool): Movie {
    if (s.hasGenres || s.hasImdbTags) && !hasTags then
      var merged := MergedText(tr, s.row);
      if merged != "" then s.row.(tags := Some(Replace(merged, ", ", "/"))) else s.row
    else s.row
  }

  /** The flags the record starts with. */
  function Start(m: Movie): Stage {
    Stage(m, Present(m.genres), Present(m.imdbId), Present(m.imdbTags))
  }

  /** Whether the detail page is fetched for a record. */
  predicate WantsDetail(m: Movie) {
    !(Present(m.genres) && Present(m.imdbId)) && LinkTruthy(m.link)
  }

  /** Whether a record is skipped outright. */
  predicate Complete(m: Movie) {
    Present(m.genres) && Present(m.imdbId) && Present(m.imdbTags) && Present(m.tags)
  }

  /** One record of the loop. */
  function Enrich(tr: string -> seq<string>, m: Movie,
                  detailOf: Option<string> -> Call<DetailResult>,
                  tagPageOf: Option<string> -> Call<ImdbTags.Page>): Enriched
  {
    if Complete(m) then Enriched(m, Skipped)
    else if WantsDetail(m) then
      match detailOf(m.link)
      case Raised => Enriched(m, Failed)
      case Returned(d) =>
        Enriched(MergePhase(tr, TagPhase(DetailPhase(Start(m), d), tagPageOf), Present(m.tags)), Updated)
    else Enriched(MergePhase(tr, TagPhase(Start(m), tagPageOf), Present(m.tags)), Updated)
  }

  // ---------------------------------------------------------------------
  // What one record's pass promises

  /** A record with all four cells present is skipped and left as it is. */
  lemma CompleteSkipped(tr: string -> seq<string>, m: Movie,
                        detailOf: Option<string> -> Call<DetailResult>,
                        tagPageOf: Option<string> -> Call<ImdbTags.Page>)
    ensures Enrich(tr, m, detailOf, tagPageOf).fate == Skipped <==> Complete(m)
    ensures Complete(m) ==> Enrich(tr, m, detailOf, tagPageOf).row == m
  {
  }

  /** A record fails exactly when its detail fetch is made and raises; it is
      then left as it is. */
  lemma FailedUnchanged(tr: string -> seq<string>, m: Movie,
                        detailOf: Option<string> -> Call<DetailResult>,
                        tagPageOf: Option<string> -> Call<ImdbTags.Page>)
    ensures var e := Enrich(tr, m, detailOf, tagPageOf);
      e.fate == Failed <==> !Complete(m) && WantsDetail(m) && detailOf(m.link).Raised?
    ensures Enrich(tr, m, detailOf, tagPageOf).fate == Failed ==> Enrich(tr, m, detailOf, tagPageOf).row == m
  {
  }

  /** The stage phases never touch the identifying and listing cells, nor a
      present genres, IMDb id, IMDb tags or tags cell. */
  lemma DetailPhaseKeeps(s: Stage, d: DetailResult)
    ensures var t := DetailPhase(s, d).row;
      t.id == s.row.id && t.title == s.row.title && t.link == s.row.link && t.date == s.row.date
      && t.rating == s.row.rating && t.posterUrl == s.row.posterUrl
      && t.imdbTags == s.row.imdbTags && t.tags == s.row.tags
    ensures s.hasGenres ==> DetailPhase(s, d).row.genres == s.row.genres
    ensures s.hasImdbId ==> DetailPhase(s, d).row.imdbId == s.row.imdbId
    ensures DetailPhase(s, d).hasImdbTags == s.hasImdbTags
  {
  }

  /** A record's pass writes only genres, language, runtime, IMDb id, IMDb
      tags and tags, and never overwrites a present genres, IMDb id, IMDb tags
      or tags cell. */
  lemma PresentCellsKept(tr: string -> seq<string>, m: Movie,
                         detailOf: Option<string> -> Call<DetailResult>,
                         tagPageOf: Option<string> -> Call<ImdbTags.Page>)
    ensures var r := Enrich(tr, m, detailOf, tagPageOf).row;
      r.id == m.id && r.title == m.title && r.link == m.link && r.date == m.date
      && r.rating == m.rating && r.posterUrl == m.posterUrl
    ensures Present(m.genres) ==> Enrich(tr, m, detailOf, tagPageOf).row.genres == m.genres
    ensures Present(m.imdbId) ==> Enrich(tr, m, detailOf, tagPageOf).row.imdbId == m.imdbId
    ensures Present(m.imdbTags) ==> Enrich(tr, m, detailOf, tagPageOf).row.imdbTags == m.imdbTags
    ensures Present(m.tags) ==> Enrich(tr, m, detailOf, tagPageOf).row.tags == m.tags
  {
    if !Complete(m) && !(WantsDetail(m) && detailOf(m.link).Raised?) {
      var s0 := if WantsDetail(m) then DetailPhase(Start(m), detailOf(m.link).value) else Start(m);
      if WantsDetail(m) {
        DetailPhaseKeeps(Start(m), detailOf(m.link).value);
      }
      var s1 := TagPhase(s0, tagPageOf);
      TagPhaseKeeps(s0, tagPageOf);
      MergePhaseKeeps(tr, s1, Present(m.tags));
      assert Enrich(tr, m, detailOf, tagPageOf).row == MergePhase(tr, s1, Present(m.tags));
    }
  }

  /** The tag phase writes only the IMDb tags cell, and only when it is
      missing. */
  lemma TagPhaseKeeps(s: Stage, tagPageOf: Option<string> -> Call<ImdbTags.Page>)
    ensures TagPhase(s, tagPageOf).row == s.row.(imdbTags := TagPhase(s, tagPageOf).row.imdbTags)
    ensures s.hasImdbTags ==> TagPhase(s, tagPageOf).row == s.row
  {
  }

  /** The merge phase writes only the tags cell, and only when it is
      missing. */
  lemma MergePhaseKeeps(tr: string -> seq<string>, s: Stage, hasTags: bool)
    ensures MergePhase(tr, s, hasTags) == s.row.(tags := MergePhase(tr, s, hasTags).tags)
    ensures hasTags ==> MergePhase(tr, s, hasTags) == s.row
  {
  }

  /** Language and runtime are not filled in but overwritten: a fetched
      truthy language replaces whatever the record held. */
  lemma LanguageOverwritten(tr: string -> seq<string>, m: Movie,
                            detailOf: Option<string> -> Call<DetailResult>,
                            tagPageOf: Option<string> -> Call<ImdbTags.Page>, d: DetailResult)
    requires !Complete(m) && WantsDetail(m)
    requires detailOf(m.link) == Returned(d)
    ensures Truthy(d.language) ==> Enrich(tr, m, detailOf, tagPageOf).row.language == d.language
    ensures d.runtime.Some? && d.runtime.value != 0 ==> Enrich(tr, m, detailOf, tagPageOf).row.runtime == d.runtime
    ensures !Truthy(d.language) ==> Enrich(tr, m, detailOf, tagPageOf).row.language == m.language
  {
  }

  /** The detail page is consulted only when genres or IMDb id is missing and
      the link is truthy: otherwise any answer gives the same outcome. */
  lemma DetailNotConsulted(tr: string -> seq<string>, m: Movie,
                           detailOf1: Option<string> -> Call<DetailResult>,
                           detailOf2: Option<string> -> Call<DetailResult>,
                           tagPageOf: Option<string> -> Call<ImdbTags.Page>)
    requires !WantsDetail(m)
    ensures Enrich(tr, m, detailOf1, tagPageOf) == Enrich(tr, m, detailOf2, tagPageOf)
  {
  }

  /** The IMDb page is consulted only when IMDb tags are missing: a record
      with IMDb tags has the same outcome whatever the page says. */
  lemma TagsNotFetched(tr: string -> seq<string>, m: Movie,
                       detailOf: Option<string> -> Call<DetailResult>,
                       tagPageOf1: Option<string> -> Call<ImdbTags.Page>,
                       tagPageOf2: Option<string> -> Call<ImdbTags.Page>)
    requires Present(m.imdbTags)
    ensures Enrich(tr, m, detailOf, tagPageOf1) == Enrich(tr, m, detailOf, tagPageOf2)
  {
  }

  /** A comma-free tag translates to comma-free tags. */
  lemma TranslateCommaFree(raw: string)
    requires ',' !in raw
    ensures forall t <- Translate(raw) :: ',' !in t
  {
    TranslateClosed(raw);
    LookupWellFormed(Trim(raw));
    TrimSpec(raw);
  }

  /** Translating comma-free tags gives comma-free tags. */
  lemma {:induction false} TranslateAllCommaFree(tags: seq<string>)
    requires forall x <- tags :: ',' !in x
    ensures forall t <- TranslateAll(Translate, tags) :: ',' !in t
  {
    if |tags| > 0 {
      var init := tags[..|tags| - 1];
      assert forall x <- init :: x in tags;
      TranslateAllCommaFree(init);
      TranslateCommaFree(tags[|tags| - 1]);
    }
  }

  /** No genre piece holds a comma. */
  lemma GenresListCommaFree(cell: Option<string>)
    ensures forall g <- GenresList(cell) :: ',' !in g
  {
    if Present(cell) {
      var ps := Split(cell.value, ',');
      forall i | 0 <= i < |ps| ensures ',' !in Trim(ps[i]) {
        TrimSpec(ps[i]);
      }
    }
  }

  /** The merged text holds no comma, so the `", "` to `"/"` replacement
      changes nothing: the tags written are the merged list joined by `/`. */
  lemma MergedTagsWritten(s: Stage, hasTags: bool)
    ensures ',' !in MergedText(Translate, s.row)
    ensures MergePhase(Translate, s, hasTags).tags
      == if (s.hasGenres || s.hasImdbTags) && !hasTags && MergedText(Translate, s.row) != ""
         then Some(MergedText(Translate, s.row)) else s.row.tags
  {
    var m := s.row;
    var all := GenresList(m.genres) + TranslateAll(Translate, ImdbPieces(m.imdbTags));
    GenresListCommaFree(m.genres);
    TranslateAllCommaFree(ImdbPieces(m.imdbTags));
    assert forall t <- Dedup(all) :: ',' !in t;
    JoinAvoids(Dedup(all), "/", ',');
    ReplaceAbsent(MergedText(Translate, m), ", ", "/");
  }

  /** The merged text reads only the genres and IMDb tags cells. */
  lemma MergedTextIgnoresTags(tr: string -> seq<string>, m: Movie, t: Option<string>)
    ensures MergedText(tr, m.(tags := t)) == MergedText(tr, m)
  {
    var m' := m.(tags := t);
    assert m'.genres == m.genres && m'.imdbTags == m.imdbTags;
  }

  /** A tags cell the merge phase writes is the merge of the record it ends
      up in, and is never empty. */
  lemma MergeWritesOwnText(s: Stage, hasTags: bool)
    ensures var r := MergePhase(Translate, s, hasTags);
      r.tags != s.row.tags ==> !hasTags && r.tags == Some(MergedText(Translate, r)) && r.tags != Some("")
  {
    var r := MergePhase(Translate, s, hasTags);
    MergedTagsWritten(s, hasTags);
    if r.tags != s.row.tags {
      assert r == s.row.(tags := r.tags);
      MergedTextIgnoresTags(Translate, s.row, r.tags);
    }
  }

  /** The whole record pass with the real translator: a tags cell it writes
      is the merge of the record's final genres and IMDb tags. */
  lemma TagsFromFinalCells(m: Movie,
                           detailOf: Option<string> -> Call<DetailResult>,
                           tagPageOf: Option<string> -> Call<ImdbTags.Page>)
    ensures var r := Enrich(Translate, m, detailOf, tagPageOf).row;
      r.tags != m.tags ==> !Present(m.tags) && r.tags == Some(MergedText(Translate, r)) && r.tags != Some("")
  {
    if !Complete(m) {
      if WantsDetail(m) {
        if detailOf(m.link).Returned? {
          var s := TagPhase(DetailPhase(Start(m), detailOf(m.link).value), tagPageOf);
          assert s.row.tags == m.tags;
          MergeWritesOwnText(s, Present(m.tags));
        }
      } else {
        var s := TagPhase(Start(m), tagPageOf);
        assert s.row.tags == m.tags;
        MergeWritesOwnText(s, Present(m.tags));
      }
    }
  }

  // ---------------------------------------------------------------------
  // The genres cell round trip, and the cell as app.py writes it

  /** A genres cell written from a list whose first genre is non-blank and
      stripped is a present cell. */
  lemma GenresCellPresent(genres: seq<string>)
    requires |genres| >= 1 && genres[0] != "" && Stripped(genres[0])
    ensures Present(Some(GenresCell(genres)))
  {
    var cell := GenresCell(genres);
    if |genres| > 1 {
      assert cell == genres[0] + (", " + Join(genres[1..], ", "));
    }
    assert cell[0] == genres[0][0];
    TrimSpec(cell);
  }

  /** Round trip: a list of non-blank, stripped, comma-free genres written to
      the genres cell reads back as the same list in the merge phase. */
  lemma GenresRoundTrip(genres: seq<string>)
    requires |genres| >= 1
    requires forall g <- genres :: g != "" && Stripped(g) && ',' !in g
    ensures GenresList(Some(GenresCell(genres))) == genres
  {
    assert genres[0] in genres;
    GenresCellPresent(genres);
    SplitSpacedJoin(genres, ',');
    var ps := Split(GenresCell(genres), ',');
    forall i | 0 <= i < |ps| ensures Trim(ps[i]) == genres[i] {
      if i == 0 {
        TrimOfTrimmed(genres[0]);
      } else {
        assert genres[1..][i - 1] == genres[i] && genres[i] in genres;
        TrimSpaced(genres[i]);
      }
    }
  }

  /** One character as a one-character string. */
  function Chars(s: string): (r: seq<string>)
    ensures |r| == |s|
  {
    seq(|s|, i requires 0 <= i < |s| => [s[i]])
  }

  /** The genres cell app.py writes when the detail fetch returns the joined
      genre text (as `get_douban_movie_detail` does): `', '.join` of a string
      joins its characters. */
  function GenresCellAsWritten(genresText: string): string {
    Join(Chars(genresText), ", ")
  }

  /** The genre text "动作" is written as "动, 作", which the merge phase
      reads back as two one-character genres. */
  lemma GenresJoinedTwice()
    ensures GenresCellAsWritten("动作") == "动, 作"
    ensures GenresList(Some(GenresCellAsWritten("动作"))) == ["动", "作"]
  {
    assert Chars("动作") == ["动", "作"];
    assert GenresCellAsWritten("动作") == "动" + ", " + "作";
    GenresRoundTrip(["动", "作"]);
  }

  // ---------------------------------------------------------------------
  // The loop and its events

  /** `int(p / total * 100)`: the processed share in whole percent. */
  function Percentage(p: nat, total: nat): nat
    requires total > 0
  {
    DivNonnegative(p * 100, total);
    p * 100 / total
  }

  lemma DivNonnegative(a: nat, d: nat)
    requires d > 0
    ensures a / d >= 0
  {
  }

  /** The progress event after the `p`-th record, if any: the first and
      every fifth record report. */
  function Tick(p: nat, total: nat): seq<Event>
    requires 1 <= p <= total
  {
    if p % 5 == 0 || p == 1 then [Progress(p, total, Percentage(p, total))] else []
  }

  /** The progress events of the first `k` records. */
  function Ticks(k: nat, total: nat): seq<Event>
    requires k <= total
  {
    if k == 0 then [] else Ticks(k - 1, total) + Tick(k, total)
  }

  /** The events of a run over `total` records with `updated` of them counted. */
  function RunEvents(total: nat, updated: nat): seq<Event> {
    [Progress(0, total, 0)] + Ticks(total, total) + [Finished(updated, total)]
  }

  /** The outcomes of the record loop over a table, in order. */
  function EnrichAll(tr: string -> seq<string>, rows: seq<Movie>,
                     detailOf: Option<string> -> Call<DetailResult>,
                     tagPageOf: Option<string> -> Call<ImdbTags.Page>): (r: seq<Enriched>)
    ensures |r| == |rows|
  {
    if |rows| == 0 then []
    else EnrichAll(tr, rows[..|rows| - 1], detailOf, tagPageOf) + [Enrich(tr, rows[|rows| - 1], detailOf, tagPageOf)]
  }

  /** The records of a sequence of outcomes. */
  function RowsOf(outcomes: seq<Enriched>): (r: seq<Movie>)
    ensures |r| == |outcomes|
  {
    if |outcomes| == 0 then [] else RowsOf(outcomes[..|outcomes| - 1]) + [outcomes[|outcomes| - 1].row]
  }

  /** The number of outcomes counted as updated. */
  function UpdatedCount(outcomes: seq<Enriched>): nat {
    if |outcomes| == 0 then 0
    else
      var last := if outcomes[|outcomes| - 1].fate == Updated then 1 else 0;
      UpdatedCount(outcomes[..|outcomes| - 1]) + last
  }

  /** The loop's outcomes are the record pass on each record in turn. */
  lemma {:induction false} EnrichAllPointwise(tr: string -> seq<string>, rows: seq<Movie>,
                                              detailOf: Option<string> -> Call<DetailResult>,
                                              tagPageOf: Option<string> -> Call<ImdbTags.Page>)
    ensures forall j | 0 <= j < |rows| :: EnrichAll(tr, rows, detailOf, tagPageOf)[j] == Enrich(tr, rows[j], detailOf, tagPageOf)
    ensures forall j | 0 <= j < |rows| :: RowsOf(EnrichAll(tr, rows, detailOf, tagPageOf))[j] == Enrich(tr, rows[j], detailOf, tagPageOf).row
  {
    if |rows| > 0 {
      var init := rows[..|rows| - 1];
      EnrichAllPointwise(tr, init, detailOf, tagPageOf);
      RowsOfPointwise(EnrichAll(tr, rows, detailOf, tagPageOf));
    }
  }

  lemma {:induction false} RowsOfPointwise(outcomes: seq<Enriched>)
    ensures forall j | 0 <= j < |outcomes| :: RowsOf(outcomes)[j] == outcomes[j].row
  {
    if |outcomes| > 0 {
      RowsOfPointwise(outcomes[..|outcomes| - 1]);
    }
  }

  /** The loop's outcomes over one more record. */
  lemma EnrichAllStep(tr: string -> seq<string>, rows: seq<Movie>, i: nat,
                      detailOf: Option<string> -> Call<DetailResult>,
                      tagPageOf: Option<string> -> Call<ImdbTags.Page>)
    requires i < |rows|
    ensures EnrichAll(tr, rows[..i + 1], detailOf, tagPageOf)
      == EnrichAll(tr, rows[..i], detailOf, tagPageOf) + [Enrich(tr, rows[i], detailOf, tagPageOf)]
  {
    assert rows[..i + 1][..i] == rows[..i];
  }

  /** A percentage of records processed never passes 100. */
  lemma PercentageBound(p: nat, total: nat)
    requires 1 <= p <= total
    ensures Percentage(p, total) <= 100
  {
    var q := p * 100 / total;
    assert q * total <= p * 100;
    if q > 100 {
      MulMonotone(101, q, total);
      assert false;
    }
  }

  lemma {:induction false} MulMonotone(a: nat, b: nat, c: nat)
    requires a <= b
    ensures a * c <= b * c
  {
    if c > 0 {
      MulMonotone(a, b, c - 1);
      assert a * c == a * (c - 1) + a;
      assert b * c == b * (c - 1) + b;
    }
  }

  /** The progress events report the first and every fifth record, in order,
      with the floor of the processed share in percent. */
  lemma {:induction false} TicksShape(k: nat, total: nat)
    requires k <= total
    ensures |Ticks(k, total)| == if k == 0 then 0 else 1 + k / 5
    ensures forall e <- Ticks(k, total) ::
      e.Progress? && e.total == total && 1 <= e.processed <= k
      && (e.processed == 1 || e.processed % 5 == 0)
      && e.percentage == Percentage(e.processed, total) && e.percentage <= 100
    ensures forall i, j | 0 <= i < j < |Ticks(k, total)| ::
      Ticks(k, total)[i].Progress? && Ticks(k, total)[j].Progress?
      && Ticks(k, total)[i].processed < Ticks(k, total)[j].processed
  {
    if k > 0 {
      TicksShape(k - 1, total);
      PercentageBound(k, total);
    }
  }

  /** At most every record is counted. */
  lemma {:induction false} UpdatedAtMost(outcomes: seq<Enriched>)
    ensures UpdatedCount(outcomes) <= |outcomes|
    ensures UpdatedCount(outcomes) == |outcomes| <==> forall e <- outcomes :: e.fate == Updated
  {
    if |outcomes| > 0 {
      var init := outcomes[..|outcomes| - 1];
      UpdatedAtMost(init);
      assert outcomes == init + [outcomes[|outcomes| - 1]];
    }
  }

  /** The detail phase, as app.py runs it on a returned detail: the two
      flags are updated along with the cells they guard. */
  method ApplyDetail(s: Stage, d: DetailResult) returns (t: Stage)
    ensures t == DetailPhase(s, d)
  {
    var r := s.row;
    var hasGenres := s.hasGenres;
    var hasImdbId := s.hasImdbId;
    if d.genres != [] && !hasGenres {
      r := r.(genres := Some(GenresCell(d.genres)));
      hasGenres := true;
    }
    if Truthy(d.language) {
      r := r.(language := d.language);
    }
    if d.runtime.Some? && d.runtime.value != 0 {
      r := r.(runtime := d.runtime);
    }
    if Truthy(d.imdbId) && !hasImdbId {
      r := r.(imdbId := d.imdbId);
      hasImdbId := true;
    }
    t := Stage(r, hasGenres, hasImdbId, s.hasImdbTags);
  }

  /** The tag phase, as app.py runs it. */
  method FetchTags(s: Stage, tagPageOf: Option<string> -> Call<ImdbTags.Page>) returns (t: Stage)
    ensures t == TagPhase(s, tagPageOf)
  {
    t := s;
    if s.hasImdbId && !s.hasImdbTags {
      var tags := ImdbTags.HandlerGetImdbTags(s.row.imdbId, tagPageOf(s.row.imdbId));
      if tags != "" {
        t := s.(row := s.row.(imdbTags := Some(tags)), hasImdbTags := true);
      }
    }
  }

  /** The merge phase, as app.py runs it: translate, merge, replace. */
  method MergeTags(tr: string -> seq<string>, s: Stage, hasTags: bool) returns (r: Movie)
    ensures r == MergePhase(tr, s, hasTags)
  {
    r := s.row;
    if (s.hasGenres || s.hasImdbTags) && !hasTags {
      var translated := TranslateTags(tr, ImdbPieces(r.imdbTags));
      var merged := MergeMovieTags(GenresList(r.genres), translated);
      if merged != "" {
        r := r.(tags := Some(Replace(merged, ", ", "/")));
      }
    }
  }

  /** One record of the loop, as app.py runs it. */
  method EnrichRecord(tr: string -> seq<string>, m: Movie,
                      detailOf: Option<string> -> Call<DetailResult>,
                      tagPageOf: Option<string> -> Call<ImdbTags.Page>)
    returns (r: Movie, fate: Fate)
    ensures Enriched(r, fate) == Enrich(tr, m, detailOf, tagPageOf)
  {
    var hasTags := Present(m.tags);
    var s := Start(m);
    if s.hasGenres && s.hasImdbId && s.hasImdbTags && hasTags {
      return m, Skipped;
    }
    if !(s.hasGenres && s.hasImdbId) && LinkTruthy(m.link) {
      var answer := detailOf(m.link);
      if answer.Raised? {
        return m, Failed;
      }
      s := ApplyDetail(s, answer.value);
    }
    s := FetchTags(s, tagPageOf);
    r := MergeTags(tr, s, hasTags);
    fate := Updated;
  }

  /** One turn of the record loop: the record at `i` is enriched in place
      and its outcome joins the outcomes so far. */
  method EnrichAt(tr: string -> seq<string>, rows: array<Movie>, i: nat,
                  detailOf: Option<string> -> Call<DetailResult>,
                  tagPageOf: Option<string> -> Call<ImdbTags.Page>,
                  ghost original: seq<Movie>, ghost outcomes: seq<Enriched>)
    returns (fate: Fate, ghost outcomes': seq<Enriched>)
    requires i < rows.Length == |original|
    requires outcomes == EnrichAll(tr, original[..i], detailOf, tagPageOf)
    requires rows[..i] == RowsOf(outcomes) && rows[i..] == original[i..]
    modifies rows
    ensures outcomes' == EnrichAll(tr, original[..i + 1], detailOf, tagPageOf)
    ensures rows[..i + 1] == RowsOf(outcomes') && rows[i + 1..] == original[i + 1..]
    ensures UpdatedCount(outcomes') == UpdatedCount(outcomes) + (if fate == Updated then 1 else 0)
  {
    assert rows[i] == original[i];
    var r;
    r, fate := EnrichRecord(tr, rows[i], detailOf, tagPageOf);
    rows[i] := r;
    EnrichAllStep(tr, original, i, detailOf, tagPageOf);
    outcomes' := outcomes + [Enriched(r, fate)];
    assert outcomes'[..|outcomes'| - 1] == outcomes;
    assert rows[..i + 1] == rows[..i] + [r];
  }

  /** The record loop of `update_from_imdb`: every record is enriched in
      place, in order, and the events are the opening report and the
      per-record reports. */
  method EnrichTable(tr: string -> seq<string>, rows: array<Movie>,
                     detailOf: Option<string> -> Call<DetailResult>,
                     tagPageOf: Option<string> -> Call<ImdbTags.Page>)
    returns (events: seq<Event>, updated: nat)
    modifies rows
    ensures rows[..] == RowsOf(EnrichAll(tr, old(rows[..]), detailOf, tagPageOf))
    ensures updated == UpdatedCount(EnrichAll(tr, old(rows[..]), detailOf, tagPageOf))
    ensures events == [Progress(0, rows.Length, 0)] + Ticks(rows.Length, rows.Length)
  {
    ghost var original := rows[..];
    ghost var outcomes: seq<Enriched> := [];
    var total := rows.Length;
    events := [Progress(0, total, 0)];
    updated := 0;
    var processed := 0;
    while processed < total
      invariant 0 <= processed <= total
      invariant outcomes == EnrichAll(tr, original[..processed], detailOf, tagPageOf)
      invariant rows[..processed] == RowsOf(outcomes)
      invariant rows[processed..] == original[processed..]
      invariant updated == UpdatedCount(outcomes)
      invariant events == [Progress(0, total, 0)] + Ticks(processed, total)
    {
      processed := processed + 1;
      var percentage := Percentage(processed, total);
      if processed % 5 == 0 || processed == 1 {
        events := events + [Progress(processed, total, percentage)];
      }
      var fate;
      fate, outcomes := EnrichAt(tr, rows, processed - 1, detailOf, tagPageOf, original, outcomes);
      if fate == Updated {
        updated := updated + 1;
      }
    }
    assert original[..total] == original && rows[..] == rows[..total];
  }

  /** `update_from_imdb` with the tag translator as a parameter: without the
      file or without an `id` or `title` column one failure event and nothing
      changes; otherwise the record loop runs and the summary with the
      updated count closes the events. */
  method UpdateFromImdbWith(tr: string -> seq<string>, fileExists: bool, columns: set<string>, rows: array<Movie>,
                            detailOf: Option<string> -> Call<DetailResult>,
                            tagPageOf: Option<string> -> Call<ImdbTags.Page>)
    returns (events: seq<Event>, updated: nat)
    modifies rows
    ensures !fileExists || "id" !in columns || "title" !in columns ==>
      events == [Failure] && rows[..] == old(rows[..])
    ensures fileExists && "id" in columns && "title" in columns ==>
      && rows[..] == RowsOf(EnrichAll(tr, old(rows[..]), detailOf, tagPageOf))
      && updated == UpdatedCount(EnrichAll(tr, old(rows[..]), detailOf, tagPageOf))
      && events == RunEvents(rows.Length, updated)
  {
    if !fileExists || "id" !in columns || "title" !in columns {
      return [Failure], 0;
    }
    events, updated := EnrichTable(tr, rows, detailOf, tagPageOf);
    events := events + [Finished(updated, rows.Length)];
  }

  /** `update_from_imdb` with `translate_imdb_tag`. */
  method UpdateFromImdb(fileExists: bool, columns: set<string>, rows: array<Movie>,
                        detailOf: Option<string> -> Call<DetailResult>,
                        tagPageOf: Option<string> -> Call<ImdbTags.Page>)
    returns (events: seq<Event>, updated: nat)
    modifies rows
    ensures !fileExists || "id" !in columns || "title" !in columns ==>
      events == [Failure] && rows[..] == old(rows[..])
    ensures fileExists && "id" in columns && "title" in columns ==>
      && rows[..] == RowsOf(EnrichAll(Translate, old(rows[..]), detailOf, tagPageOf))
      && updated == UpdatedCount(EnrichAll(Translate, old(rows[..]), detailOf, tagPageOf))
      && events == RunEvents(rows.Length, updated)
  {
    events, updated := UpdateFromImdbWith(Translate, fileExists, columns, rows, detailOf, tagPageOf);
  }
}
