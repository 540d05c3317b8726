/**
  The field rules of `get_douban_movie_detail`: a Douban detail page is
  reduced to its `info` block, seen as the `span.pl` label spans (each with
  the sibling nodes that follow it) and the texts of the `v:genre` spans.
  Four fields are read independently: the IMDb id, the genres, the first
  language and the runtime in minutes.
*/
module DoubanDetail {
  import opened Common
  import opened PyStr
  import ImdbTags

  /** A sibling node: a text node, or an element with its tag name and its text. */
  datatype Node = Text(s: string) | Tag(name: string, text: string)

  /** A `span.pl` label: its text and the siblings that follow it, in page order. */
  datatype Label = Label(text: string, siblings: seq<Node>)

  /** The `div#info` block. */
  datatype Info = Info(labels: seq<Label>, genreSpans: seq<string>)

  /** The response to the detail-page request. */
  datatype DetailPage = DetailPage(status: int, info: Option<Info>)

  /** `(imdb_id, genres, language, runtime)`. */
  datatype Detail = Detail(imdbId: Option<string>, genres: Option<string>,
                           language: Option<string>, runtime: Option<nat>)

  const NoDetail := Detail(None, None, None, None)

  /** Python truthiness of a node: an element always, a text node when non-empty. */
  predicate Truthy(n: Node) {
    n.Tag? || n.s != ""
  }

  /** `node.strip()` for a text node, `node.get_text(strip=True)` for an element. */
  function NodeText(n: Node): string {
    match n
    case Text(s) => Trim(s)
    case Tag(_, t) => Trim(t)
  }

  /** The label's text is `name:` or `name`. */
  predicate IsLabel(l: Label, name: string) {
    Trim(l.text) == name + ":" || Trim(l.text) == name
  }

  // ---------------------------------------------------------------------
  // Label search: the first matching span, then `break`.
  // ---------------------------------------------------------------------

  /** The index of the first label named `name`, if any. */
  function FirstLabel(labels: seq<Label>, name: string): (r: Option<nat>)
    ensures r.Some? ==> r.value < |labels| && IsLabel(labels[r.value], name)
    ensures r.Some? ==> forall k | 0 <= k < r.value :: !IsLabel(labels[k], name)
    ensures r.None? <==> forall k | 0 <= k < |labels| :: !IsLabel(labels[k], name)
  {
    if |labels| == 0 then None
    else if IsLabel(labels[0], name) then Some(0)
    else
      match FirstLabel(labels[1..], name)
      case None => None
      case Some(i) => Some(i + 1)
  }

  /** Labels after the first match are never looked at. */
  lemma {:induction false} LaterLabelsIgnored(labels: seq<Label>, more: seq<Label>, name: string)
    requires FirstLabel(labels, name).Some?
    ensures FirstLabel(labels + more, name) == FirstLabel(labels, name)
  {
    if !IsLabel(labels[0], name) {
      assert (labels + more)[1..] == labels[1..] + more;
      LaterLabelsIgnored(labels[1..], more, name);
    }
  }

  /** The `for span in ...: if matches: ...; break` scan. */
  method FindLabel(labels: seq<Label>, name: string) returns (r: Option<nat>)
    ensures r == FirstLabel(labels, name)
  {
    r := None;
    var i := 0;
    while i < |labels|
      invariant 0 <= i <= |labels|
      invariant forall k | 0 <= k < i :: !IsLabel(labels[k], name)
    {
      if IsLabel(labels[i], name) {
        r := Some(i);
        break;
      }
      i := i + 1;
    }
  }

  /** The stripped text of the label's next sibling, when there is a truthy one. */
  function NextText(l: Label): Option<string> {
    if |l.siblings| > 0 && Truthy(l.siblings[0]) then Some(NodeText(l.siblings[0])) else None
  }

  // ---------------------------------------------------------------------
  // IMDb id: `re.search(r'(tt\d+)', text).group(1)`.
  // ---------------------------------------------------------------------

  /** `tt` followed by a digit starts at index `i`. */
  predicate TtAt(s: string, i: int) {
    0 <= i && i + 3 <= |s| && s[i] == 't' && s[i + 1] == 't' && IsDigit(s[i + 2])
  }

  /** The leftmost match of `tt\d+`, the `tt` kept. */
  function SearchTt(s: string): Option<string>
    decreases |s|
  {
    if |s| < 3 then None
    else if TtAt(s, 0) then Some("tt" + DigitRun(s[2..]))
    else SearchTt(s[1..])
  }

  /** A match is `tt` and at least one digit, taken from `s`; there is none
      exactly when `tt<digit>` occurs nowhere. */
  lemma {:induction false} SearchTtSpec(s: string)
    ensures SearchTt(s).Some? ==>
      |SearchTt(s).value| >= 3 && StartsWith(SearchTt(s).value, "tt") && AllDigits(SearchTt(s).value[2..])
    ensures SearchTt(s).Some? ==> Contains(s, SearchTt(s).value)
    ensures SearchTt(s).None? <==> forall i | 0 <= i < |s| :: !TtAt(s, i)
    decreases |s|
  {
    if |s| < 3 {
    } else if TtAt(s, 0) {
      TtAtOccurs(s);
    } else {
      SearchTtSpec(s[1..]);
      var r := SearchTt(s[1..]);
      TtShift(s);
      if r.Some? {
        var i :| 0 <= i < |s[1..]| && TtAt(s[1..], i);
        assert TtAt(s, i + 1);
        var j :| 0 <= j <= |s[1..]| - |r.value| && OccursAt(s[1..], r.value, j);
        OccursShift(s, r.value, j);
      }
    }
  }

  /** At a match, `tt` and the digit run occur at the start. */
  lemma TtAtOccurs(s: string)
    requires TtAt(s, 0)
    ensures OccursAt(s, "tt" + DigitRun(s[2..]), 0)
  {
    var d := DigitRun(s[2..]);
    assert s[2..][..|d|] == d;
    assert s[0..2 + |d|] == "tt" + d;
  }

  /** `tt<digit>` at `i` in the tail is `tt<digit>` at `i + 1`. */
  lemma TtShift(s: string)
    requires |s| > 0
    ensures forall i | 1 <= i < |s| :: TtAt(s, i) == TtAt(s[1..], i - 1)
  {
  }

  /** The match starts at the first `tt<digit>` and takes every digit after it. */
  lemma {:induction false} SearchTtFirst(s: string, i: nat)
    requires TtAt(s, i)
    requires forall j | 0 <= j < i :: !TtAt(s, j)
    ensures SearchTt(s) == Some("tt" + DigitRun(s[i + 2..]))
  {
    if i > 0 {
      assert !TtAt(s, 0);
      assert s[1..][i - 1 + 2..] == s[i + 2..];
      forall j | 0 <= j < i - 1 ensures !TtAt(s[1..], j) {
        assert !TtAt(s, j + 1);
      }
      SearchTtFirst(s[1..], i - 1);
    }
  }

  /** An extracted id is already in the form `ImdbTags.NormalizeId` produces,
      so the IMDb lookup uses it unchanged. */
  lemma ExtractedIdNormal(s: string)
    requires SearchTt(s).Some?
    ensures ImdbTags.NormalizeId(SearchTt(s).value) == SearchTt(s).value
  {
    SearchTtSpec(s);
    var r := SearchTt(s).value;
    assert r[0] == 't' && r[|r| - 1] == r[2..][|r| - 3];
    TrimOfTrimmed(r);
  }

  /** The IMDb id read after a label: the first `tt\d+` of the next sibling's text. */
  function ImdbIdAfter(l: Label): Option<string> {
    match NextText(l)
    case None => None
    case Some(t) => if t == "" then None else SearchTt(t)
  }

  function ImdbIdOf(labels: seq<Label>): Option<string> {
    match FirstLabel(labels, "IMDb")
    case None => None
    case Some(i) => ImdbIdAfter(labels[i])
  }

  // ---------------------------------------------------------------------
  // Genres.
  // ---------------------------------------------------------------------

  /** The stripped genre texts that are non-empty and not `剧情`, in page order. */
  function GenreList(spans: seq<string>): seq<string> {
    if |spans| == 0 then []
    else
      var g := Trim(spans[|spans| - 1]);
      GenreList(spans[..|spans| - 1]) + (if g != "" && g != "剧情" then [g] else [])
  }

  /** Every kept genre is a non-empty, stripped text other than `剧情`, and a
      text is kept exactly when some span strips to it. */
  lemma {:induction false} GenreListSpec(spans: seq<string>)
    ensures forall g <- GenreList(spans) :: g != "" && g != "剧情" && Stripped(g)
    ensures forall x :: x in GenreList(spans) <==>
      x != "" && x != "剧情" && exists k | 0 <= k < |spans| :: Trim(spans[k]) == x
  {
    if |spans| > 0 {
      var init := spans[..|spans| - 1];
      var g := Trim(spans[|spans| - 1]);
      GenreListSpec(init);
      TrimSpec(spans[|spans| - 1]);
      forall x
        ensures x in GenreList(spans) <==>
          x != "" && x != "剧情" && exists k | 0 <= k < |spans| :: Trim(spans[k]) == x
      {
        if x != "" && x != "剧情" && exists k | 0 <= k < |spans| :: Trim(spans[k]) == x {
          var k :| 0 <= k < |spans| && Trim(spans[k]) == x;
          if k < |init| {
            assert Trim(init[k]) == x;
          }
        }
        if x in GenreList(init) {
          var k :| 0 <= k < |init| && Trim(init[k]) == x;
          assert Trim(spans[k]) == x;
        }
      }
    }
  }

  /** Extracting again from the extracted genres changes nothing. */
  lemma {:induction false} GenreListIdempotent(spans: seq<string>)
    ensures GenreList(GenreList(spans)) == GenreList(spans)
  {
    if |spans| > 0 {
      var init := spans[..|spans| - 1];
      var g := Trim(spans[|spans| - 1]);
      GenreListIdempotent(init);
      if g != "" && g != "剧情" {
        var gs := GenreList(init) + [g];
        assert gs[..|gs| - 1] == GenreList(init);
        assert gs[|gs| - 1] == g;
        TrimIdempotent(spans[|spans| - 1]);
        assert GenreList(gs) == GenreList(GenreList(init)) + [g];
      } else {
        assert GenreList(spans) == GenreList(init);
      }
    }
  }

  /** The `genre_spans` loop with `genres.append`. */
  method CollectGenres(spans: seq<string>) returns (genres: seq<string>)
    ensures genres == GenreList(spans)
  {
    genres := [];
    for i := 0 to |spans|
      invariant genres == GenreList(spans[..i])
    {
      assert spans[..i + 1][..i] == spans[..i];
      var text := Trim(spans[i]);
      if text != "" && text != "剧情" {
        genres := genres + [text];
      }
    }
    assert spans[..|spans|] == spans;
  }

  /** `', '.join(genres) if genres else None`. */
  function GenresOf(spans: seq<string>): Option<string> {
    var g := GenreList(spans);
    if |g| == 0 then None else Some(Join(g, ", "))
  }

  // ---------------------------------------------------------------------
  // Language: the sibling walk after the first `语言` label.
  // ---------------------------------------------------------------------

  /** `text.split('/')[0].split('、')[0].strip()`. */
  function FirstLanguage(t: string): (r: string)
    ensures '/' !in r && '、' !in r && Stripped(r)
  {
    var a := Before(t, '/');
    var b := Before(a, '、');
    assert '/' !in b by {
      assert b == a[..|b|];
    }
    TrimSpec(b);
    Trim(b)
  }

  /** The walk `while current: ...; current = current.next_sibling`.
      `textHasName` says whether `hasattr(current, 'name')` holds for a
      text node: when it does, text nodes fall through both element tests
      and are skipped; when it does not, the text branch reads them. */
  function LanguageWalk(sibs: seq<Node>, textHasName: bool): Option<string> {
    if |sibs| == 0 || !Truthy(sibs[0]) then None
    else
      match sibs[0]
      case Tag(name, text) =>
        if name == "a" then Some(Trim(text))
        else if name == "br" then None
        else LanguageWalk(sibs[1..], textHasName)
      case Text(s) =>
        if !textHasName && Trim(s) != "" && Trim(s) != "/" && Trim(s) != "、"
        then Some(FirstLanguage(Trim(s)))
        else LanguageWalk(sibs[1..], textHasName)
  }

  /** The walk as the code runs under a parser whose text nodes carry a
      `name` attribute (`None`): only `<a>` elements can give a language. */
  function LanguageAsWritten(sibs: seq<Node>): Option<string> {
    LanguageWalk(sibs, true)
  }

  /** The walk as evidently intended: plain-text languages are read too. */
  function Language(sibs: seq<Node>): Option<string> {
    LanguageWalk(sibs, false)
  }

  /** As written, a language is always the text of some `<a>` sibling. */
  lemma {:induction false} LanguageAsWrittenFromLink(sibs: seq<Node>)
    ensures LanguageAsWritten(sibs).Some? ==>
      exists k | 0 <= k < |sibs| :: sibs[k].Tag? && sibs[k].name == "a" && LanguageAsWritten(sibs).value == Trim(sibs[k].text)
  {
    if |sibs| > 0 && Truthy(sibs[0]) && !(sibs[0].Tag? && sibs[0].name in {"a", "br"}) {
      LanguageAsWrittenFromLink(sibs[1..]);
      if LanguageAsWritten(sibs[1..]).Some? {
        var k :| 0 <= k < |sibs[1..]| && sibs[1..][k].Tag? && sibs[1..][k].name == "a"
          && LanguageAsWritten(sibs[1..]).value == Trim(sibs[1..][k].text);
        assert sibs[k + 1] == sibs[1..][k];
      }
    }
  }

  /** As intended, a language is a link's text or a stripped piece of a text
      node holding neither `/` nor `、`. */
  lemma {:induction false} LanguageShape(sibs: seq<Node>)
    ensures Language(sibs).Some? ==>
      (exists k | 0 <= k < |sibs| :: sibs[k].Tag? && sibs[k].name == "a" && Language(sibs).value == Trim(sibs[k].text))
      || ('/' !in Language(sibs).value && '、' !in Language(sibs).value && Stripped(Language(sibs).value))
  {
    if |sibs| > 0 && Truthy(sibs[0]) && Language(sibs) == Language(sibs[1..]) {
      LanguageShape(sibs[1..]);
      if Language(sibs[1..]).Some? && !('/' !in Language(sibs).value && '、' !in Language(sibs).value && Stripped(Language(sibs).value)) {
        var k :| 0 <= k < |sibs[1..]| && sibs[1..][k].Tag? && sibs[1..][k].name == "a"
          && Language(sibs[1..]).value == Trim(sibs[1..][k].text);
        assert sibs[k + 1] == sibs[1..][k];
      }
    }
  }

  /** Either way, nothing after the first `<br>` is looked at. */
  lemma {:induction false} LanguageStopsAtBreak(sibs: seq<Node>, k: nat, textHasName: bool)
    requires k < |sibs| && sibs[k].Tag? && sibs[k].name == "br"
    ensures LanguageWalk(sibs, textHasName) == LanguageWalk(sibs[..k], textHasName)
  {
    if k > 0 && Truthy(sibs[0]) {
      assert sibs[..k][1..] == sibs[1..][..k - 1];
      LanguageStopsAtBreak(sibs[1..], k - 1, textHasName);
    }
  }

  /** Among element siblings only, both readings agree: the two differ on text nodes alone. */
  lemma {:induction false} LanguageAgreesOnElements(sibs: seq<Node>)
    requires forall k | 0 <= k < |sibs| :: sibs[k].Tag?
    ensures LanguageAsWritten(sibs) == Language(sibs)
  {
    if |sibs| > 0 {
      LanguageAgreesOnElements(sibs[1..]);
    }
  }

  /** `语言: 英语<br>`: as written no language is found, as intended it is `英语`. */
  lemma PlainTextLanguageLost()
    ensures LanguageAsWritten([Text(" 英语"), Tag("br", "")]) == None
    ensures Language([Text(" 英语"), Tag("br", "")]) == Some("英语")
  {
    var sibs := [Text(" 英语"), Tag("br", "")];
    assert sibs[1..] == [Tag("br", "")];
    assert Trim(" 英语") == "英语" by {
      assert TrimStart(" 英语") == "英语" by {
        assert " 英语"[1..] == "英语";
      }
      TrimOfTrimmed("英语");
    }
    assert Before("英语", '/') == "英语";
    assert Before("英语", '、') == "英语";
    TrimOfTrimmed("英语");
  }

  /** The `while current:` walk, reading text nodes as intended. */
  method WalkLanguage(sibs: seq<Node>) returns (language: Option<string>)
    ensures language == Language(sibs)
  {
    language := None;
    var i := 0;
    while i < |sibs| && Truthy(sibs[i])
      invariant 0 <= i <= |sibs|
      invariant Language(sibs[i..]) == Language(sibs)
      decreases |sibs| - i
    {
      assert sibs[i..][1..] == sibs[i + 1..];
      match sibs[i] {
      case Tag(name, text) =>
        if name == "a" {
          language := Some(Trim(text));
          break;
        } else if name == "br" {
          break;
        }
      case Text(s) =>
        var text := Trim(s);
        if text != "" && text != "/" && text != "、" {
          language := Some(FirstLanguage(text));
          break;
        }
      }
      i := i + 1;
    }
  }

  function LanguageOf(labels: seq<Label>): Option<string> {
    match FirstLabel(labels, "语言")
    case None => None
    case Some(i) => Language(labels[i].siblings)
  }

  // ---------------------------------------------------------------------
  // Runtime: `int(re.search(r'(\d+)\s*分钟', text).group(1))`.
  // ---------------------------------------------------------------------

  /** A match of `(\d+)\s*分钟` starts at index `i`. Since the character after
      a greedy `\d+` is no digit and `分` is no whitespace, backtracking never
      helps: the whole digit run, then all whitespace, then `分钟`. */
  predicate MinutesAt(s: string, i: int) {
    0 <= i < |s| && IsDigit(s[i])
    && StartsWith(TrimStart(s[i + |DigitRun(s[i..])|..]), "分钟")
  }

  /** The digits of the leftmost match, as an integer. */
  function SearchMinutes(s: string): Option<nat>
    decreases |s|
  {
    if |s| == 0 then None
    else if MinutesAt(s, 0) then Some(DigitsValue(DigitRun(s)))
    else SearchMinutes(s[1..])
  }

  lemma MinutesShift(s: string, i: int)
    requires 1 <= i < |s|
    ensures MinutesAt(s, i) == MinutesAt(s[1..], i - 1)
  {
    assert s[1..][i - 1..] == s[i..];
  }

  /** There is no runtime exactly when no digit run is followed by `分钟`. */
  lemma {:induction false} SearchMinutesNone(s: string)
    ensures SearchMinutes(s).None? <==> forall i | 0 <= i < |s| :: !MinutesAt(s, i)
    decreases |s|
  {
    if |s| > 0 && !MinutesAt(s, 0) {
      SearchMinutesNone(s[1..]);
      MinutesShiftAll(s);
      if SearchMinutes(s[1..]).Some? {
        var i :| 0 <= i < |s[1..]| && MinutesAt(s[1..], i);
        MinutesShift(s, i + 1);
      }
    }
  }

  /** The leftmost match decides: its digit run is the value. */
  lemma {:induction false} SearchMinutesFirst(s: string, i: nat)
    requires MinutesAt(s, i)
    requires forall j | 0 <= j < i :: !MinutesAt(s, j)
    ensures SearchMinutes(s) == Some(DigitsValue(DigitRun(s[i..])))
  {
    if i > 0 {
      assert !MinutesAt(s, 0);
      MinutesShiftAll(s);
      forall j | 0 <= j < i - 1 ensures !MinutesAt(s[1..], j) {
        assert !MinutesAt(s, j + 1);
      }
      assert MinutesAt(s[1..], i - 1);
      assert s[1..][i - 1..] == s[i..];
      SearchMinutesFirst(s[1..], i - 1);
    }
  }

  lemma MinutesShiftAll(s: string)
    requires |s| > 0
    ensures forall i | 1 <= i < |s| :: MinutesAt(s, i) == MinutesAt(s[1..], i - 1)
  {
    forall i | 1 <= i < |s| ensures MinutesAt(s, i) == MinutesAt(s[1..], i - 1) {
      MinutesShift(s, i);
    }
  }

  lemma {:induction false} TrimStartSpaces(sp: string, x: string)
    requires forall k | 0 <= k < |sp| :: IsSpace(sp[k])
    requires |x| > 0 && !IsSpace(x[0])
    ensures TrimStart(sp + x) == x
  {
    if |sp| > 0 {
      assert (sp + x)[1..] == sp[1..] + x;
      TrimStartSpaces(sp[1..], x);
    } else {
      assert sp + x == x;
    }
  }

  /** A page text `<digits><spaces>分钟...` yields exactly those digits' value. */
  lemma MinutesOfText(d: string, sp: string, rest: string)
    requires |d| > 0 && AllDigits(d)
    requires forall k | 0 <= k < |sp| :: IsSpace(sp[k])
    ensures SearchMinutes(d + sp + "分钟" + rest) == Some(DigitsValue(d))
  {
    var x := sp + "分钟" + rest;
    var s := d + x;
    assert d + sp + "分钟" + rest == s;
    assert |x| > 0 && !IsDigit(x[0]) by {
      if |sp| > 0 { assert x[0] == sp[0]; } else { assert x[0] == '分'; }
    }
    DigitRunOf(d, x);
    assert s[0..] == s;
    assert s[|d|..] == x;
    TrimStartSpaces(sp, "分钟" + rest);
    assert sp + ("分钟" + rest) == x;
    assert MinutesAt(s, 0);
  }

  function RuntimeAfter(l: Label): Option<nat> {
    match NextText(l)
    case None => None
    case Some(t) => if t == "" then None else SearchMinutes(t)
  }

  function RuntimeOf(labels: seq<Label>): Option<nat> {
    match FirstLabel(labels, "片长")
    case None => None
    case Some(i) => RuntimeAfter(labels[i])
  }

  // ---------------------------------------------------------------------
  // The whole extractor.
  // ---------------------------------------------------------------------

  /** What `get_douban_movie_detail(url)` returns for a response (`Raised`
      when the request or the parsing throws), with the language read by the
      corrected walk `Language` rather than `LanguageAsWritten`: a plain-text
      language is kept here, where the code as written loses it. */
  function DetailOf(url: string, response: Call<DetailPage>): Detail {
    if url == "" then NoDetail
    else
      match response
      case Raised => NoDetail
      case Returned(page) =>
        if page.status != 200 then NoDetail
        else
          match page.info
          case None => NoDetail
          case Some(info) =>
            Detail(ImdbIdOf(info.labels), GenresOf(info.genreSpans),
                   LanguageOf(info.labels), RuntimeOf(info.labels))
  }

  /** An empty URL, a failed request, a non-200 status or a page without an
      `info` block gives four `None`s. */
  lemma DetailErrors(url: string, response: Call<DetailPage>)
    requires url == "" || response.Raised? || response.value.status != 200 || response.value.info.None?
    ensures DetailOf(url, response) == NoDetail
  {
  }

  /** Each field is read on its own: the genres do not depend on the labels,
      and the label-based fields ignore the genre spans and every label
      after the first one that concerns them. */
  lemma FieldsIndependent(url: string, page: DetailPage, labels: seq<Label>, spans: seq<string>)
    requires url != "" && page.status == 200 && page.info == Some(Info(labels, spans))
    ensures DetailOf(url, Returned(page)).genres == GenresOf(spans)
    ensures DetailOf(url, Returned(page)).imdbId ==
      (match FirstLabel(labels, "IMDb") case None => None case Some(i) => ImdbIdAfter(labels[i]))
    ensures DetailOf(url, Returned(page)).language ==
      (match FirstLabel(labels, "语言") case None => None case Some(i) => Language(labels[i].siblings))
    ensures DetailOf(url, Returned(page)).runtime ==
      (match FirstLabel(labels, "片长") case None => None case Some(i) => RuntimeAfter(labels[i]))
  {
  }

  /** The extractor: the three label scans, the genre loop and the corrected
      language walk. */
  method GetDetail(url: string, response: Call<DetailPage>) returns (d: Detail)
    ensures d == DetailOf(url, response)
  {
    if url == "" {
      return NoDetail;
    }
    if response.Raised? || response.value.status != 200 || response.value.info.None? {
      return NoDetail;
    }
    var info := response.value.info.value;
    var labels := info.labels;

    var imdbId: Option<string> := None;
    var at := FindLabel(labels, "IMDb");
    if at.Some? {
      var next := NextText(labels[at.value]);
      if next.Some? && next.value != "" {
        imdbId := SearchTt(next.value);
      }
    }

    var genres := CollectGenres(info.genreSpans);

    var language: Option<string> := None;
    at := FindLabel(labels, "语言");
    if at.Some? {
      language := WalkLanguage(labels[at.value].siblings);
    }

    var runtime: Option<nat> := None;
    at := FindLabel(labels, "片长");
    if at.Some? {
      var next := NextText(labels[at.value]);
      if next.Some? && next.value != "" {
        runtime := SearchMinutes(next.value);
      }
    }

    var genresText := if |genres| == 0 then None else Some(Join(genres, ", "));
    d := Detail(imdbId, genresText, language, runtime);
  }
}
