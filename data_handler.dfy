/**
  The stand-alone helpers of `scripts/data_handler.py`: cookie
  normalisation, the `user_id` check of the Douban configuration, the
  server-sent-events framing of progress messages, and the tag -> movies
  mapping the web page shows.
*/
module DataHandler {
  import opened Common
  import opened PyStr
  import opened Store
  import TagMerge
  import TagIndex

  // ---------------------------------------------------------------------
  // JSON values and cookies
  // ---------------------------------------------------------------------

  /** A value as `json.load` gives it (numbers kept to integers). */
  datatype Value =
    | Null
    | Bool(b: bool)
    | Num(n: int)
    | Str(s: string)
    | List(items: seq<Value>)
    | Dict(fields: map<string, Value>)

  /** Python truthiness. */
  predicate Truthy(v: Value) {
    match v
    case Null => false
    case Bool(b) => b
    case Num(n) => n != 0
    case Str(s) => s != ""
    case List(items) => items != []
    case Dict(fields) => fields != map[]
  }

  /** `d.get(key)`: the field, or `None` when it is missing. */
  function Lookup(fields: map<string, Value>, key: string): Value {
    if key in fields then fields[key] else Null
  }

  /** A dictionary key. Python hashes `True` and `False` as 1 and 0, so they
      share a slot with those numbers. */
  datatype Key = NoneKey | Text(s: string) | Number(n: int)

  /** The key a value is stored under, or `None` when the value is not
      hashable (a list or a dictionary): storing it raises `TypeError`. */
  function KeyOf(v: Value): Option<Key> {
    match v
    case Null => Some(NoneKey)
    case Bool(b) => Some(Number(if b then 1 else 0))
    case Num(n) => Some(Number(n))
    case Str(s) => Some(Text(s))
    case List(_) => None
    case Dict(_) => None
  }

  /** A cookie jar: the dictionary `normalize_cookies` returns. */
  type Cookies = map<Key, Value>

  /** A dictionary of cookies is the jar itself. */
  function DictCookies(fields: map<string, Value>): (r: Cookies)
    ensures forall k :: Text(k) in r <==> k in fields
    ensures forall k | k in fields :: r[Text(k)] == fields[k]
    ensures forall key | key in r :: key.Text?
  {
    map k | k in fields :: Text(k) := fields[k]
  }

  /** A list item that names a cookie: a dictionary whose `name` is truthy
      and whose `value` is not `None`. */
  predicate NamedCookie(item: Value) {
    item.Dict? && Truthy(Lookup(item.fields, "name")) && Lookup(item.fields, "value") != Null
  }

  /** A named item whose name cannot be a key. */
  predicate Unhashable(item: Value) {
    NamedCookie(item) && KeyOf(Lookup(item.fields, "name")).None?
  }

  /** A named item stored under `k`. */
  predicate NamedAs(item: Value, k: Key) {
    NamedCookie(item) && KeyOf(Lookup(item.fields, "name")) == Some(k)
  }

  /** The jar built from a list of cookie items, item by item. */
  function ListCookies(items: seq<Value>): Call<Cookies> {
    if |items| == 0 then Returned(map[])
    else
      var item := items[|items| - 1];
      var prior := ListCookies(items[..|items| - 1]);
      if prior.Raised? then Raised
      else if !NamedCookie(item) then prior
      else
        var key := KeyOf(Lookup(item.fields, "name"));
        if key.None? then Raised
        else Returned(prior.value[key.value := Lookup(item.fields, "value")])
  }

  /** A list raises exactly when some named item has an unhashable name. */
  lemma {:induction false} ListCookiesRaised(items: seq<Value>)
    ensures ListCookies(items).Raised? <==> exists i | 0 <= i < |items| :: Unhashable(items[i])
  {
    if |items| > 0 {
      var init := items[..|items| - 1];
      ListCookiesRaised(init);
      assert forall i | 0 <= i < |init| :: init[i] == items[i];
    }
  }

  /** A jar from a list holds exactly the names of its named items. */
  lemma {:induction false} ListCookiesKeys(items: seq<Value>, k: Key)
    requires ListCookies(items).Returned?
    ensures k in ListCookies(items).value <==> exists i | 0 <= i < |items| :: NamedAs(items[i], k)
  {
    if |items| > 0 {
      var init := items[..|items| - 1];
      ListCookiesKeys(init, k);
      assert forall i | 0 <= i < |init| :: init[i] == items[i];
    }
  }

  /** Under each name the jar keeps the value of the last item with that
      name: later items overwrite earlier ones. */
  lemma {:induction false} ListCookiesLastWins(items: seq<Value>, i: nat, k: Key)
    requires ListCookies(items).Returned?
    requires i < |items| && NamedAs(items[i], k)
    requires forall j | i < j < |items| :: !NamedAs(items[j], k)
    ensures k in ListCookies(items).value
    ensures ListCookies(items).value[k] == Lookup(items[i].fields, "value")
  {
    var init := items[..|items| - 1];
    if i < |items| - 1 {
      assert init[i] == items[i];
      assert forall j | i < j < |init| :: init[j] == items[j];
      ListCookiesLastWins(init, i, k);
    }
  }

  /** One `;`-separated part: split at its first `=`, key and value
      stripped; a part without `=` gives nothing. */
  function PartCookie(part: string): Option<(Key, Value)> {
    if '=' in part then Some((Text(Trim(Before(part, '='))), Str(Trim(After(part, '=')))))
    else None
  }

  /** The jar built from the parts of a cookie string, part by part. */
  function PartsCookies(parts: seq<string>): Cookies {
    if |parts| == 0 then map[]
    else
      var prior := PartsCookies(parts[..|parts| - 1]);
      var kv := PartCookie(parts[|parts| - 1]);
      if kv.None? then prior else prior[kv.value.0 := kv.value.1]
  }

  /** The jar of a `k=v; k=v` cookie string. */
  function StringCookies(s: string): Cookies {
    PartsCookies(Pieces(s, ';'))
  }

  /** `normalize_cookies`: what a cookie setting of each JSON type becomes. */
  function CookiesOf(cookies: Value): Call<Cookies> {
    match cookies
    case Dict(fields) => Returned(DictCookies(fields))
    case List(items) => ListCookies(items)
    case Str(s) => Returned(StringCookies(s))
    case _ => Returned(map[])
  }

  /** A cookie name and value that survive the trip through a header:
      stripped, free of `;`, and no `=` in the name. */
  predicate HeaderSafe(p: (string, string)) {
    Stripped(p.0) && Stripped(p.1) && ';' !in p.0 && ';' !in p.1 && '=' !in p.0
  }

  function PairText(p: (string, string)): string {
    p.0 + "=" + p.1
  }

  function PairTexts(pairs: seq<(string, string)>): (r: seq<string>)
    ensures |r| == |pairs|
  {
    seq(|pairs|, i requires 0 <= i < |pairs| => PairText(pairs[i]))
  }

  /** A cookie header `k1=v1; k2=v2` as a browser writes it. */
  function CookieHeader(pairs: seq<(string, string)>): string {
    Join(PairTexts(pairs), "; ")
  }

  /** The jar that setting the pairs in order gives. */
  function PairsCookies(pairs: seq<(string, string)>): Cookies {
    if |pairs| == 0 then map[]
    else
      var p := pairs[|pairs| - 1];
      PairsCookies(pairs[..|pairs| - 1])[Text(p.0) := Str(p.1)]
  }

  /** A `k=v` part of safe text is non-blank, stripped, free of `;`, and
      reads back as its name and value. */
  lemma PairTextParts(p: (string, string))
    requires HeaderSafe(p)
    ensures PairText(p) != "" && Stripped(PairText(p)) && ';' !in PairText(p)
    ensures PartCookie(PairText(p)) == Some((Text(p.0), Str(p.1)))
  {
    var s := PairText(p);
    assert s[|p.0|] == '=' && s[..|p.0|] == p.0;
    BeforeFirst(s, '=', |p.0|);
    var r := After(s, '=');
    assert s == p.0 + ['='] + r;
    assert r == s[|p.0| + 1..] == p.1;
    TrimOfTrimmed(p.0);
    TrimOfTrimmed(p.1);
  }

  lemma {:induction false} PartsOfPairs(pairs: seq<(string, string)>)
    requires forall p <- pairs :: HeaderSafe(p)
    ensures PartsCookies(PairTexts(pairs)) == PairsCookies(pairs)
  {
    if |pairs| > 0 {
      var init := pairs[..|pairs| - 1];
      assert PairTexts(pairs)[..|pairs| - 1] == PairTexts(init);
      assert forall p <- init :: p in pairs;
      PartsOfPairs(init);
      assert pairs[|pairs| - 1] in pairs;
      PairTextParts(pairs[|pairs| - 1]);
    }
  }

  /** Parsing a cookie header gives the jar its pairs set, the last pair of
      a name winning. */
  lemma {:induction false} CookieHeaderRoundTrip(pairs: seq<(string, string)>)
    requires forall p <- pairs :: HeaderSafe(p)
    ensures StringCookies(CookieHeader(pairs)) == PairsCookies(pairs)
  {
    var texts := PairTexts(pairs);
    forall i | 0 <= i < |pairs|
      ensures texts[i] != "" && Stripped(texts[i]) && ';' !in texts[i]
    {
      assert pairs[i] in pairs;
      PairTextParts(pairs[i]);
    }
    assert Pieces(CookieHeader(pairs), ';') == texts by {
      if |texts| == 0 {
        assert Split("", ';') == [""];
        assert Trim("") == "";
      } else {
        assert "; " == [';', ' '];
        SplitSpacedJoin(texts, ';');
        var ps := [texts[0]] + Spaced(texts[1..]);
        assert ps[0] == texts[0] && ps[1..] == Spaced(texts[1..]);
        TrimOfTrimmed(texts[0]);
        KeepTrimmedSpaced(texts[1..]);
        assert [texts[0]] + texts[1..] == texts;
      }
    }
    PartsOfPairs(pairs);
  }

  /** The list branch of `normalize_cookies`, item by item. */
  method CookiesFromList(items: seq<Value>) returns (r: Call<Cookies>)
    ensures r == ListCookies(items)
  {
    var result: Cookies := map[];
    for i := 0 to |items|
      invariant ListCookies(items[..i]) == Returned(result)
    {
      var item := items[i];
      assert items[..i + 1][..i] == items[..i];
      if item.Dict? {
        var name := Lookup(item.fields, "name");
        var value := Lookup(item.fields, "value");
        if Truthy(name) && value != Null {
          var key := KeyOf(name);
          if key.None? {
            assert Unhashable(items[i]);
            ListCookiesRaised(items);
            return Raised;
          }
          result := result[key.value := value];
        }
      }
    }
    assert items[..|items|] == items;
    r := Returned(result);
  }

  /** The string branch of `normalize_cookies`, part by part. */
  method CookiesFromString(s: string) returns (r: Cookies)
    ensures r == StringCookies(s)
  {
    var parts := Pieces(s, ';');
    r := map[];
    for i := 0 to |parts|
      invariant PartsCookies(parts[..i]) == r
    {
      var part := parts[i];
      assert parts[..i + 1][..i] == parts[..i];
      if '=' in part {
        var key, value := Trim(Before(part, '=')), Trim(After(part, '='));
        assert PartCookie(part) == Some((Text(key), Str(value)));
        r := r[Text(key) := Str(value)];
      }
    }
    assert parts[..|parts|] == parts;
  }

  /** `normalize_cookies`. */
  method NormalizeCookies(cookies: Value) returns (r: Call<Cookies>)
    ensures r == CookiesOf(cookies)
  {
    match cookies {
      case Dict(fields) =>
        r := Returned(DictCookies(fields));
      case List(items) =>
        r := CookiesFromList(items);
      case Str(s) =>
        var jar := CookiesFromString(s);
        r := Returned(jar);
      case _ =>
        r := Returned(map[]);
    }
  }

  // ---------------------------------------------------------------------
  // The Douban configuration
  // ---------------------------------------------------------------------

  /** What reading `douban_config.json` gives. */
  datatype ConfigFile = NoFile | BadJson | Parsed(config: Value)

  /** The exception `load_douban_config` raises. */
  datatype ConfigError =
    | FileNotFound     // no configuration file
    | InvalidJson      // `json.load` fails
    | NotAnObject      // the document is not an object: `config.get` fails
    | UnhashableName   // a cookie item names itself with a list or object
    | MissingUserId    // `user_id` missing or falsy

  datatype Config = Config(userId: Value, cookies: Cookies)

  /** `config.get('cookies', {})`. */
  function CookieSetting(fields: map<string, Value>): Value {
    if "cookies" in fields then fields["cookies"] else Dict(map[])
  }

  /** `load_douban_config`: the cookies are normalised before `user_id` is
      checked, so a cookie error wins over a missing id. */
  function LoadDoubanConfig(file: ConfigFile): Result<Config, ConfigError> {
    match file
    case NoFile => Err(FileNotFound)
    case BadJson => Err(InvalidJson)
    case Parsed(v) =>
      if !v.Dict? then Err(NotAnObject)
      else
        var userId := Lookup(v.fields, "user_id");
        var cookies := CookiesOf(CookieSetting(v.fields));
        if cookies.Raised? then Err(UnhashableName)
        else if !Truthy(userId) then Err(MissingUserId)
        else Ok(Config(userId, cookies.value))
  }

  /** A configuration loads exactly when it is an object with a truthy
      `user_id` and normalisable cookies; the id is returned as given. */
  lemma ConfigLoads(file: ConfigFile)
    ensures LoadDoubanConfig(file).Ok? <==>
      file.Parsed? && file.config.Dict? && Truthy(Lookup(file.config.fields, "user_id"))
      && CookiesOf(CookieSetting(file.config.fields)).Returned?
    ensures LoadDoubanConfig(file).Ok? ==>
      LoadDoubanConfig(file).value.userId == file.config.fields["user_id"]
      && LoadDoubanConfig(file).value.cookies == CookiesOf(CookieSetting(file.config.fields)).value
  {
  }

  /** Without a `cookies` entry the jar is empty. */
  lemma NoCookiesEmpty(fields: map<string, Value>)
    requires "cookies" !in fields
    ensures CookiesOf(CookieSetting(fields)) == Returned(map[])
  {
    assert DictCookies(map[]) == map[];
  }

  /** A parsed object whose `user_id` is missing or falsy is refused, unless
      its cookies fail first. */
  lemma UserIdRequired(fields: map<string, Value>)
    requires !Truthy(Lookup(fields, "user_id"))
    ensures LoadDoubanConfig(Parsed(Dict(fields))) ==
      if CookiesOf(CookieSetting(fields)).Raised? then Err(UnhashableName) else Err(MissingUserId)
  {
  }

  // ---------------------------------------------------------------------
  // Server-sent events
  // ---------------------------------------------------------------------

  /** `stream_response_generator`: one event whose data is the message. */
  function Frame(message: string): string {
    "data: " + message + "\n\n"
  }

  /** A stream of frames, one per message in order. */
  function Stream(messages: seq<string>): string {
    if |messages| == 0 then "" else Frame(messages[0]) + Stream(messages[1..])
  }

  /** The field name and value of a non-blank line, as section 9.2.6 of the
      WHATWG HTML Living Standard reads it: the name runs to the first
      colon, and one space after the colon is dropped; a line without a
      colon names a field with an empty value. A comment (a line starting
      with a colon) names the empty field, which is ignored. */
  function Field(line: string): (string, string) {
    if ':' in line then
      var v := After(line, ':');
      (Before(line, ':'), if |v| > 0 && v[0] == ' ' then v[1..] else v)
    else (line, "")
  }

  /** The events a client dispatches from a sequence of lines, starting with
      data buffer `data`: `data` fields append their value and a line feed;
      a blank line dispatches a non-empty buffer without its last line feed
      and empties it; other fields are ignored. */
  function Dispatch(lines: seq<string>, data: string): seq<string>
    decreases |lines|
  {
    if |lines| == 0 then []
    else if lines[0] == "" then
      (if data == "" then [] else [data[..|data| - 1]]) + Dispatch(lines[1..], "")
    else
      var f := Field(lines[0]);
      Dispatch(lines[1..], if f.0 == "data" then data + f.1 + "\n" else data)
  }

  /** The event data a client receives from a stream: the text after the
      last line feed is no complete line and is discarded at the end of the
      stream. */
  function Received(stream: string): seq<string> {
    var pieces := Split(stream, '\n');
    Dispatch(pieces[..|pieces| - 1], "")
  }

  /** The lines of a stream of frames. */
  function FrameLines(messages: seq<string>): seq<string> {
    if |messages| == 0 then [] else ["data: " + messages[0], ""] + FrameLines(messages[1..])
  }

  lemma {:induction false} StreamLines(messages: seq<string>)
    ensures Join(FrameLines(messages) + [""], "\n") == Stream(messages)
  {
    if |messages| > 0 {
      var m := messages[0];
      var rest := FrameLines(messages[1..]) + [""];
      StreamLines(messages[1..]);
      var ls := ["data: " + m, ""] + rest;
      assert FrameLines(messages) + [""] == ls;
      assert ls[1..] == [""] + rest;
      assert ([""] + rest)[1..] == rest;
      assert Join(ls, "\n") == "data: " + m + "\n" + ("" + "\n" + Join(rest, "\n"));
    }
  }

  lemma {:induction false} FrameLinesFree(messages: seq<string>)
    requires forall m <- messages :: '\n' !in m
    ensures forall l <- FrameLines(messages) :: '\n' !in l
  {
    if |messages| > 0 {
      assert forall m <- messages[1..] :: m in messages;
      FrameLinesFree(messages[1..]);
      assert messages[0] in messages;
      assert '\n' !in "data: " + messages[0];
    }
  }

  lemma FieldOfFrame(m: string)
    ensures Field("data: " + m) == ("data", m)
  {
    var line := "data: " + m;
    assert line[4] == ':' && line[..4] == "data";
    BeforeFirst(line, ':', 4);
    var v := After(line, ':');
    assert line == "data" + [':'] + v;
    assert v == line[5..] == " " + m;
  }

  lemma {:induction false} DispatchFrames(messages: seq<string>)
    ensures Dispatch(FrameLines(messages), "") == messages
  {
    if |messages| > 0 {
      var m := messages[0];
      var ls := FrameLines(messages);
      FieldOfFrame(m);
      assert ls[1..][1..] == FrameLines(messages[1..]);
      assert ("" + m + "\n")[..|m|] == m;
      DispatchFrames(messages[1..]);
    }
  }

  /** A client receives the messages of a stream of frames, in order, as
      long as no message holds a line feed. */
  lemma {:induction false} StreamRoundTrip(messages: seq<string>)
    requires forall m <- messages :: '\n' !in m
    ensures Received(Stream(messages)) == messages
  {
    var ls := FrameLines(messages) + [""];
    StreamLines(messages);
    FrameLinesFree(messages);
    assert "\n" == ['\n'];
    SplitJoin(ls, '\n');
    assert ls[..|ls| - 1] == FrameLines(messages);
    DispatchFrames(messages);
  }

  /** One frame carries exactly its message. */
  lemma FrameRoundTrip(message: string)
    requires '\n' !in message
    ensures Received(Frame(message)) == [message]
  {
    assert [message][1..] == [];
    assert Stream([message]) == Frame(message) + "" == Frame(message);
    StreamRoundTrip([message]);
  }

  // ---------------------------------------------------------------------
  // The tag -> movies mapping
  // ---------------------------------------------------------------------

  /** The movie dictionary filed under each tag. */
  datatype MovieSummary = MovieSummary(
    id: Option<string>,
    title: Option<string>,
    link: Option<string>,
    date: Option<string>,
    rating: Option<string>,
    posterUrl: Option<string>)

  function Summary(m: Movie): MovieSummary {
    MovieSummary(m.id, m.title, m.link, m.date, m.rating, m.posterUrl)
  }

  /** The tags a row is filed under: none for an empty or NaN cell, else the
      non-empty stripped `/`-segments. */
  function RowTags(m: Movie): seq<string> {
    if m.tags.Some? && m.tags.value != "" then Pieces(m.tags.value, '/') else []
  }

  function SummaryEntries(rows: seq<Movie>): (es: seq<TagIndex.Entry<MovieSummary>>)
    ensures |es| == |rows|
  {
    seq(|rows|, j requires 0 <= j < |rows| => TagIndex.Entry(RowTags(rows[j]), Summary(rows[j])))
  }

  /** `get_tag_movies_mapping` over the rows of `tags.xlsx` (none when the
      file is missing, unreadable or empty). */
  method TagMoviesMapping(rows: seq<Movie>) returns (mapping: map<string, seq<MovieSummary>>)
    ensures mapping == TagIndex.Indexed(SummaryEntries(rows))
    ensures TagIndex.IndexOf(mapping, SummaryEntries(rows))
  {
    mapping := map[];
    for i := 0 to |rows|
      invariant mapping == TagIndex.Indexed(SummaryEntries(rows[..i]))
    {
      var m := rows[i];
      ghost var es := SummaryEntries(rows[..i]);
      ghost var e := TagIndex.Entry(RowTags(m), Summary(m));
      assert SummaryEntries(rows[..i + 1]) == es + [e];
      assert (es + [e])[..|es|] == es;
      if m.tags.Some? && m.tags.value != "" {
        mapping := TagIndex.AddPostings(mapping, Split(m.tags.value, '/'), Summary(m));
      }
    }
    assert rows[..|rows|] == rows;
    TagIndex.IndexedIndexOf(SummaryEntries(rows));
  }

  /** A movie is listed under `t` exactly when one of its rows carries `t`. */
  lemma MappingMembers(rows: seq<Movie>, t: string, x: MovieSummary)
    ensures x in TagIndex.Get(TagIndex.Indexed(SummaryEntries(rows)), t) <==>
      exists j | 0 <= j < |rows| :: Summary(rows[j]) == x && t in RowTags(rows[j])
  {
    var es := SummaryEntries(rows);
    TagIndex.IndexedIndexOf(es);
    TagIndex.PostingsMember(es, t, x);
    assert forall k | 0 <= k < |es| :: es[k].payload == Summary(rows[k]) && es[k].tags == RowTags(rows[k]);
  }

  /** The tags of the mapping are exactly the tags some row carries; each is
      non-empty, stripped and free of `/`. */
  lemma MappingKeys(rows: seq<Movie>, t: string)
    ensures t in TagIndex.Indexed(SummaryEntries(rows)) <==>
      exists j | 0 <= j < |rows| :: t in RowTags(rows[j])
    ensures t in TagIndex.Indexed(SummaryEntries(rows)) ==> t != "" && Stripped(t) && '/' !in t
  {
    var es := SummaryEntries(rows);
    TagIndex.IndexedIndexOf(es);
    TagIndex.IndexKeys(TagIndex.Indexed(es), es, t);
    assert forall k | 0 <= k < |es| :: es[k].tags == RowTags(rows[k]);
  }

  /** When no row repeats a tag, each tag lists its movies once each, in
      row order. */
  lemma MappingInRowOrder(rows: seq<Movie>, t: string)
    requires forall j | 0 <= j < |rows| :: TagMerge.NoRepeats(RowTags(rows[j]))
    ensures TagIndex.Get(TagIndex.Indexed(SummaryEntries(rows)), t) ==
      TagIndex.Carrying(SummaryEntries(rows), t)
  {
    var es := SummaryEntries(rows);
    TagIndex.IndexedIndexOf(es);
    TagIndex.PostingsOfDistinct(es, t);
  }
}
