/**
  Translation of IMDb interest tags into the Chinese tag vocabulary
  (scripts/merge_tags.py): a static dictionary, a set of language names that
  are suppressed, and the four-rule cascade of `translate_imdb_tag`.
*/
module TagTranslation {
  import opened Common
  import opened PyStr

  // The entries of `IMDB_TAG_TRANSLATION`, in source order, grouped under the
  // source's own comment headings. No key occurs in two groups.

  /** Plain genres, not decomposed. (scripts/merge_tags.py:52-72) */
  const BasicGenres: map<string, seq<string>> := map[
      "Action" := ["动作"],
      "Adventure" := ["冒险"],
      "Animation" := ["动画"],
      "Anime" := ["动画"],
      "Biography" := ["传记"],
      "Comedy" := ["喜剧"],
      "Crime" := ["犯罪"],
      "Disaster" := ["灾难"],
      "Documentary" := ["纪录片"],
      "Family" := ["家庭"],
      "History" := ["历史"],
      "Horror" := ["恐怖"],
      "Music" := ["音乐"],
      "Mystery" := ["悬疑"],
      "Romance" := ["爱情"],
      "Sci-Fi" := ["科幻"],
      "Science Fiction" := ["科幻"],
      "Sport" := ["运动"],
      "War" := ["战争"],
      "Western" := ["西部"],
      "Tragedy" := ["悲剧"]
    ]

  /** Epic compounds. (scripts/merge_tags.py:75-80) */
  const Epics: map<string, seq<string>> := map[
      "Epic" := ["史诗"],
      "War Epic" := ["战争", "史诗"],
      "Adventure Epic" := ["冒险", "史诗"],
      "Romantic Epic" := ["爱情", "史诗"],
      "Action Epic" := ["动作", "史诗"],
      "Sci-Fi Epic" := ["科幻", "史诗"]
    ]

  /** Drama compounds. (scripts/merge_tags.py:83-88) */
  const Dramas: map<string, seq<string>> := map[
      "Political Drama" := ["政治"],
      "Cop Drama" := ["警察"],
      "Period Drama" := ["年代"],
      "Psychological Drama" := ["心理"],
      "Teen Drama" := ["青春"],
      "Docudrama" := ["纪实"]
    ]

  /** Adventure compounds. (scripts/merge_tags.py:91-95) */
  const Adventures: map<string, seq<string>> := map[
      "Sea Adventure" := ["海洋", "冒险"],
      "Desert Adventure" := ["沙漠", "冒险"],
      "Mountain Adventure" := ["山地", "冒险"],
      "Globetrotting Adventure" := ["环球", "冒险"],
      "Dinosaur Adventure" := ["恐龙", "冒险"]
    ]

  /** Romance and comedy compounds. (scripts/merge_tags.py:98-108) */
  const RomanceComedy: map<string, seq<string>> := map[
      "Romantic Comedy" := ["爱情", "喜剧"],
      "Teen Comedy" := ["青春", "喜剧"],
      "Concept Comedy" := ["概念", "喜剧"],
      "Quirky Comedy" := ["怪诞", "喜剧"],
      "High-Concept Comedy" := ["高概念", "喜剧", "概念"],
      "Dark Comedy" := ["黑色喜剧", "喜剧", "黑暗"],
      "Dark Romance" := ["黑暗", "爱情"],
      "Tragic Romance" := ["悲剧", "爱情"],
      "Steamy Romance" := ["激情", "爱情"],
      "Teen Romance" := ["青春", "爱情"],
      "Feel-Good Romance" := ["温暖", "爱情"]
    ]

  /** Thriller compounds. (scripts/merge_tags.py:111-116) */
  const Thrillers: map<string, seq<string>> := map[
      "Thriller" := ["惊悚"],
      "Political Thriller" := ["政治", "惊悚"],
      "Psychological Thriller" := ["心理", "惊悚"],
      "Conspiracy Thriller" := ["阴谋", "惊悚"],
      "Legal Thriller" := ["律政", "惊悚"],
      "Cyber Thriller" := ["网络", "惊悚"]
    ]

  /** Horror compounds. (scripts/merge_tags.py:119-130) */
  const Horrors: map<string, seq<string>> := map[
      "Body Horror" := ["肉体", "恐怖"],
      "Psychological Horror" := ["心理", "恐怖"],
      "Found Footage Horror" := ["伪纪录片", "恐怖"],
      "Monster Horror" := ["怪物", "恐怖"],
      "Splatter Horror" := ["血浆", "恐怖"],
      "Vampire Horror" := ["吸血鬼", "恐怖"],
      "Zombie Horror" := ["僵尸", "恐怖"],
      "Witch Horror" := ["女巫", "恐怖"],
      "Folk Horror" := ["民俗", "恐怖"],
      "Supernatural Horror" := ["超自然", "恐怖"],
      "Teen Horror" := ["青春", "恐怖"],
      "B-Horror" := ["B级", "恐怖"]
    ]

  /** Action and crime. (scripts/merge_tags.py:133-139) */
  const ActionCrime: map<string, seq<string>> := map[
      "Car Action" := ["汽车", "动作"],
      "Martial Arts" := ["武术"],
      "Gun Fu" := ["枪斗"],
      "Spy" := ["间谍"],
      "Heist" := ["劫案"],
      "Caper" := ["怪盗"],
      "One-Person Army Action" := ["一人成军"]
    ]

  /** Science fiction. (scripts/merge_tags.py:142-148) */
  const SciFi: map<string, seq<string>> := map[
      "Alien Invasion" := ["外星入侵"],
      "Dystopian Sci" := ["反乌托邦", "科幻"],
      "Dystopian Sci-Fi" := ["反乌托邦", "科幻"],
      "Space Sci" := ["太空", "科幻"],
      "Space Sci-Fi" := ["太空", "科幻"],
      "Time Travel" := ["时间旅行"],
      "Steampunk" := ["蒸汽朋克"]
    ]

  /** Fantasy. (scripts/merge_tags.py:151-153) */
  const Fantasies: map<string, seq<string>> := map[
      "Fantasy" := ["奇幻"],
      "Supernatural Fantasy" := ["超自然", "奇幻"],
      "Dark Fantasy" := ["黑暗", "奇幻"]
    ]

  /** Crime compounds listed after fantasy. (scripts/merge_tags.py:155-156) */
  const CrimeKinds: map<string, seq<string>> := map[
      "Drug Crime" := ["毒贩", "犯罪"],
      "True Crime" := ["真实犯罪", "犯罪"]
    ]

  /** Everything else. (scripts/merge_tags.py:159-175) */
  const Others: map<string, seq<string>> := map[
      "Whodunnit" := ["推理"],
      "Detective" := ["侦探"],
      "Serial Killer" := ["连环杀手"],
      "Hard-boiled Detective" := ["硬汉", "侦探"],
      "Police Procedural" := ["刑侦"],
      "Suspense Mystery" := ["悬疑", "推理"],
      "Hand-Drawn Animation" := ["手绘", "动画"],
      "Contemporary Western" := ["现代西部"],
      "Kaiju" := ["怪兽"],
      "Survival" := ["生存"],
      "Road Trip" := ["公路"],
      "Quest" := ["使命"],
      "Fairy Tale" := ["童话"],
      "Slice of Life" := ["生活"],
      "Satire" := ["讽刺"],
      "Coming-of-Age" := ["成长"],
      "Motorsport" := ["赛车"]
    ]


  /** The 29 language names `translate_imdb_tag` suppresses. */
  const LanguageTags: set<string> := {
      "English", "Japanese", "Chinese", "French", "German", "Spanish", "Italian",
      "Korean", "Russian", "Portuguese", "Hindi", "Arabic", "Turkish", "Polish",
      "Dutch", "Swedish", "Norwegian", "Danish", "Finnish", "Greek", "Hebrew",
      "Thai", "Vietnamese", "Indonesian", "Malay", "Tagalog", "Mandarin",
      "Cantonese", "Tamil"
    }

  /** Free of both tag-list separators. */
  predicate Unseparated(t: string) {
    ',' !in t && '/' !in t
  }

  /** A character of the CJK Unified Ideographs block, U+4E00..U+9FFF. */
  predicate IsCjk(c: char) {
    0x4E00 <= c as int <= 0x9FFF
  }

  /** `any('\u4e00' <= ch <= '\u9fff' for ch in s)`. */
  predicate HasCjk(s: string) {
    |s| > 0 && (IsCjk(s[0]) || HasCjk(s[1..]))
  }

  /** `IMDB_TAG_TRANSLATION.get(tag)` (scripts/merge_tags.py:50-176). The
      groups share no key, so asking them in turn finds the one entry. */
  function Lookup(tag: string): Option<seq<string>> {
    if tag in BasicGenres then Some(BasicGenres[tag])
    else if tag in Epics then Some(Epics[tag])
    else if tag in Dramas then Some(Dramas[tag])
    else if tag in Adventures then Some(Adventures[tag])
    else if tag in RomanceComedy then Some(RomanceComedy[tag])
    else if tag in Thrillers then Some(Thrillers[tag])
    else if tag in Horrors then Some(Horrors[tag])
    else if tag in ActionCrime then Some(ActionCrime[tag])
    else if tag in SciFi then Some(SciFi[tag])
    else if tag in Fantasies then Some(Fantasies[tag])
    else if tag in CrimeKinds then Some(CrimeKinds[tag])
    else if tag in Others then Some(Others[tag])
    else None
  }

  /** `translate_imdb_tag(tag)`: language names are suppressed, dictionary hits
      are returned as listed, a tag already written in Chinese passes through,
      and anything else is dropped. */
  function Translate(raw: string): seq<string> {
    var tag := Trim(raw);
    if tag in LanguageTags then []
    else match Lookup(tag)
      case Some(v) => v
      case None => if HasCjk(tag) then [tag] else []
  }

  /** Every key of an entry group maps to a non-empty list of tags, none of
      which contains the `,` or the `/` the pipeline splits tag lists on. */
  predicate WellFormedTable(g: map<string, seq<string>>) {
    NoCommas(g) && NoSlashes(g)
  }

  predicate NoCommas(g: map<string, seq<string>>) {
    forall k | k in g :: |g[k]| > 0 && forall t <- g[k] :: ',' !in t
  }

  predicate NoSlashes(g: map<string, seq<string>>) {
    forall k | k in g :: forall t <- g[k] :: '/' !in t
  }

  lemma BasicGenresNoCommas() ensures NoCommas(BasicGenres) {}
  lemma BasicGenresNoSlashes() ensures NoSlashes(BasicGenres) {}
  lemma EpicsNoCommas() ensures NoCommas(Epics) {}
  lemma EpicsNoSlashes() ensures NoSlashes(Epics) {}
  lemma DramasNoCommas() ensures NoCommas(Dramas) {}
  lemma DramasNoSlashes() ensures NoSlashes(Dramas) {}
  lemma AdventuresNoCommas() ensures NoCommas(Adventures) {}
  lemma AdventuresNoSlashes() ensures NoSlashes(Adventures) {}
  lemma RomanceComedyNoCommas() ensures NoCommas(RomanceComedy) {}
  lemma RomanceComedyNoSlashes() ensures NoSlashes(RomanceComedy) {}
  lemma ThrillersNoCommas() ensures NoCommas(Thrillers) {}
  lemma ThrillersNoSlashes() ensures NoSlashes(Thrillers) {}
  lemma HorrorsNoCommas() ensures NoCommas(Horrors) {}
  lemma HorrorsNoSlashes() ensures NoSlashes(Horrors) {}
  lemma ActionCrimeNoCommas() ensures NoCommas(ActionCrime) {}
  lemma ActionCrimeNoSlashes() ensures NoSlashes(ActionCrime) {}
  lemma SciFiNoCommas() ensures NoCommas(SciFi) {}
  lemma SciFiNoSlashes() ensures NoSlashes(SciFi) {}
  lemma FantasiesNoCommas() ensures NoCommas(Fantasies) {}
  lemma FantasiesNoSlashes() ensures NoSlashes(Fantasies) {}
  lemma CrimeKindsNoCommas() ensures NoCommas(CrimeKinds) {}
  lemma CrimeKindsNoSlashes() ensures NoSlashes(CrimeKinds) {}
  lemma OthersNoCommas() ensures NoCommas(Others) {}
  lemma OthersNoSlashes() ensures NoSlashes(Others) {}

  lemma BasicGenresWellFormed() ensures WellFormedTable(BasicGenres) { BasicGenresNoCommas(); BasicGenresNoSlashes(); }
  lemma EpicsWellFormed() ensures WellFormedTable(Epics) { EpicsNoCommas(); EpicsNoSlashes(); }
  lemma DramasWellFormed() ensures WellFormedTable(Dramas) { DramasNoCommas(); DramasNoSlashes(); }
  lemma AdventuresWellFormed() ensures WellFormedTable(Adventures) { AdventuresNoCommas(); AdventuresNoSlashes(); }
  lemma RomanceComedyWellFormed() ensures WellFormedTable(RomanceComedy) { RomanceComedyNoCommas(); RomanceComedyNoSlashes(); }
  lemma ThrillersWellFormed() ensures WellFormedTable(Thrillers) { ThrillersNoCommas(); ThrillersNoSlashes(); }
  lemma HorrorsWellFormed() ensures WellFormedTable(Horrors) { HorrorsNoCommas(); HorrorsNoSlashes(); }
  lemma ActionCrimeWellFormed() ensures WellFormedTable(ActionCrime) { ActionCrimeNoCommas(); ActionCrimeNoSlashes(); }
  lemma SciFiWellFormed() ensures WellFormedTable(SciFi) { SciFiNoCommas(); SciFiNoSlashes(); }
  lemma FantasiesWellFormed() ensures WellFormedTable(Fantasies) { FantasiesNoCommas(); FantasiesNoSlashes(); }
  lemma CrimeKindsWellFormed() ensures WellFormedTable(CrimeKinds) { CrimeKindsNoCommas(); CrimeKindsNoSlashes(); }
  lemma OthersWellFormed() ensures WellFormedTable(Others) { OthersNoCommas(); OthersNoSlashes(); }

  // No key is a language name. The solver checks this on small sets of
  // literals: each group's keys written out, against the language names in
  // two halves, rather than by unfolding the dictionary.

  const LanguagesEarly: set<string> := {
      "English", "Japanese", "Chinese", "French", "German", "Spanish", "Italian",
      "Korean", "Russian", "Portuguese", "Hindi", "Arabic", "Turkish", "Polish", "Dutch"
    }

  const LanguagesLate: set<string> := {
      "Swedish", "Norwegian", "Danish", "Finnish", "Greek", "Hebrew", "Thai",
      "Vietnamese", "Indonesian", "Malay", "Tagalog", "Mandarin", "Cantonese", "Tamil"
    }

  lemma LanguageHalves()
    ensures LanguageTags == LanguagesEarly + LanguagesLate
  {
  }

  const BasicGenresKeys: set<string> := {
      "Action", "Adventure", "Animation", "Anime", "Biography", "Comedy", "Crime", "Disaster",
      "Documentary", "Family", "History", "Horror", "Music", "Mystery", "Romance", "Sci-Fi",
      "Science Fiction", "Sport", "War", "Western", "Tragedy"
    }

  const EpicsKeys: set<string> := {
      "Epic", "War Epic", "Adventure Epic", "Romantic Epic", "Action Epic", "Sci-Fi Epic"
    }

  const DramasKeys: set<string> := {
      "Political Drama", "Cop Drama", "Period Drama", "Psychological Drama", "Teen Drama",
      "Docudrama"
    }

  const AdventuresKeys: set<string> := {
      "Sea Adventure", "Desert Adventure", "Mountain Adventure", "Globetrotting Adventure",
      "Dinosaur Adventure"
    }

  const RomanceComedyKeys: set<string> := {
      "Romantic Comedy", "Teen Comedy", "Concept Comedy", "Quirky Comedy", "High-Concept Comedy",
      "Dark Comedy", "Dark Romance", "Tragic Romance", "Steamy Romance", "Teen Romance",
      "Feel-Good Romance"
    }

  const ThrillersKeys: set<string> := {
      "Thriller", "Political Thriller", "Psychological Thriller", "Conspiracy Thriller",
      "Legal Thriller", "Cyber Thriller"
    }

  const HorrorsKeys: set<string> := {
      "Body Horror", "Psychological Horror", "Found Footage Horror", "Monster Horror",
      "Splatter Horror", "Vampire Horror", "Zombie Horror", "Witch Horror", "Folk Horror",
      "Supernatural Horror", "Teen Horror", "B-Horror"
    }

  const ActionCrimeKeys: set<string> := {
      "Car Action", "Martial Arts", "Gun Fu", "Spy", "Heist", "Caper", "One-Person Army Action"
    }

  const SciFiKeys: set<string> := {
      "Alien Invasion", "Dystopian Sci", "Dystopian Sci-Fi", "Space Sci", "Space Sci-Fi",
      "Time Travel", "Steampunk"
    }

  const FantasiesKeys: set<string> := {
      "Fantasy", "Supernatural Fantasy", "Dark Fantasy"
    }

  const CrimeKindsKeys: set<string> := {
      "Drug Crime", "True Crime"
    }

  const OthersKeys: set<string> := {
      "Whodunnit", "Detective", "Serial Killer", "Hard-boiled Detective", "Police Procedural",
      "Suspense Mystery", "Hand-Drawn Animation", "Contemporary Western", "Kaiju", "Survival",
      "Road Trip", "Quest", "Fairy Tale", "Slice of Life", "Satire", "Coming-of-Age", "Motorsport"
    }

  lemma BasicGenresKeysExact() ensures BasicGenres.Keys == BasicGenresKeys {}
  lemma BasicGenresKeysEarly() ensures BasicGenresKeys !! LanguagesEarly {}
  lemma BasicGenresKeysLate() ensures BasicGenresKeys !! LanguagesLate {}
  lemma BasicGenresNoLanguage()
    ensures BasicGenres.Keys !! LanguageTags
  {
    LanguageHalves();
    BasicGenresKeysExact();
    BasicGenresKeysEarly();
    BasicGenresKeysLate();
  }

  lemma EpicsKeysExact() ensures Epics.Keys == EpicsKeys {}
  lemma EpicsKeysEarly() ensures EpicsKeys !! LanguagesEarly {}
  lemma EpicsKeysLate() ensures EpicsKeys !! LanguagesLate {}
  lemma EpicsNoLanguage()
    ensures Epics.Keys !! LanguageTags
  {
    LanguageHalves();
    EpicsKeysExact();
    EpicsKeysEarly();
    EpicsKeysLate();
  }

  lemma DramasKeysExact() ensures Dramas.Keys == DramasKeys {}
  lemma DramasKeysEarly() ensures DramasKeys !! LanguagesEarly {}
  lemma DramasKeysLate() ensures DramasKeys !! LanguagesLate {}
  lemma DramasNoLanguage()
    ensures Dramas.Keys !! LanguageTags
  {
    LanguageHalves();
    DramasKeysExact();
    DramasKeysEarly();
    DramasKeysLate();
  }

  lemma AdventuresKeysExact() ensures Adventures.Keys == AdventuresKeys {}
  lemma AdventuresKeysEarly() ensures AdventuresKeys !! LanguagesEarly {}
  lemma AdventuresKeysLate() ensures AdventuresKeys !! LanguagesLate {}
  lemma AdventuresNoLanguage()
    ensures Adventures.Keys !! LanguageTags
  {
    LanguageHalves();
    AdventuresKeysExact();
    AdventuresKeysEarly();
    AdventuresKeysLate();
  }

  lemma RomanceComedyKeysExact() ensures RomanceComedy.Keys == RomanceComedyKeys {}
  lemma RomanceComedyKeysEarly() ensures RomanceComedyKeys !! LanguagesEarly {}
  lemma RomanceComedyKeysLate() ensures RomanceComedyKeys !! LanguagesLate {}
  lemma RomanceComedyNoLanguage()
    ensures RomanceComedy.Keys !! LanguageTags
  {
    LanguageHalves();
    RomanceComedyKeysExact();
    RomanceComedyKeysEarly();
    RomanceComedyKeysLate();
  }

  lemma ThrillersKeysExact() ensures Thrillers.Keys == ThrillersKeys {}
  lemma ThrillersKeysEarly() ensures ThrillersKeys !! LanguagesEarly {}
  lemma ThrillersKeysLate() ensures ThrillersKeys !! LanguagesLate {}
  lemma ThrillersNoLanguage()
    ensures Thrillers.Keys !! LanguageTags
  {
    LanguageHalves();
    ThrillersKeysExact();
    ThrillersKeysEarly();
    ThrillersKeysLate();
  }

  lemma HorrorsKeysExact() ensures Horrors.Keys == HorrorsKeys {}
  lemma HorrorsKeysEarly() ensures HorrorsKeys !! LanguagesEarly {}
  lemma HorrorsKeysLate() ensures HorrorsKeys !! LanguagesLate {}
  lemma HorrorsNoLanguage()
    ensures Horrors.Keys !! LanguageTags
  {
    LanguageHalves();
    HorrorsKeysExact();
    HorrorsKeysEarly();
    HorrorsKeysLate();
  }

  lemma ActionCrimeKeysExact() ensures ActionCrime.Keys == ActionCrimeKeys {}
  lemma ActionCrimeKeysEarly() ensures ActionCrimeKeys !! LanguagesEarly {}
  lemma ActionCrimeKeysLate() ensures ActionCrimeKeys !! LanguagesLate {}
  lemma ActionCrimeNoLanguage()
    ensures ActionCrime.Keys !! LanguageTags
  {
    LanguageHalves();
    ActionCrimeKeysExact();
    ActionCrimeKeysEarly();
    ActionCrimeKeysLate();
  }

  lemma SciFiKeysExact() ensures SciFi.Keys == SciFiKeys {}
  lemma SciFiKeysEarly() ensures SciFiKeys !! LanguagesEarly {}
  lemma SciFiKeysLate() ensures SciFiKeys !! LanguagesLate {}
  lemma SciFiNoLanguage()
    ensures SciFi.Keys !! LanguageTags
  {
    LanguageHalves();
    SciFiKeysExact();
    SciFiKeysEarly();
    SciFiKeysLate();
  }

  lemma FantasiesKeysExact() ensures Fantasies.Keys == FantasiesKeys {}
  lemma FantasiesKeysEarly() ensures FantasiesKeys !! LanguagesEarly {}
  lemma FantasiesKeysLate() ensures FantasiesKeys !! LanguagesLate {}
  lemma FantasiesNoLanguage()
    ensures Fantasies.Keys !! LanguageTags
  {
    LanguageHalves();
    FantasiesKeysExact();
    FantasiesKeysEarly();
    FantasiesKeysLate();
  }

  lemma CrimeKindsKeysExact() ensures CrimeKinds.Keys == CrimeKindsKeys {}
  lemma CrimeKindsKeysEarly() ensures CrimeKindsKeys !! LanguagesEarly {}
  lemma CrimeKindsKeysLate() ensures CrimeKindsKeys !! LanguagesLate {}
  lemma CrimeKindsNoLanguage()
    ensures CrimeKinds.Keys !! LanguageTags
  {
    LanguageHalves();
    CrimeKindsKeysExact();
    CrimeKindsKeysEarly();
    CrimeKindsKeysLate();
  }

  lemma OthersKeysExact() ensures Others.Keys == OthersKeys {}
  lemma OthersKeysEarly() ensures OthersKeys !! LanguagesEarly {}
  lemma OthersKeysLate() ensures OthersKeys !! LanguagesLate {}
  lemma OthersNoLanguage()
    ensures Others.Keys !! LanguageTags
  {
    LanguageHalves();
    OthersKeysExact();
    OthersKeysEarly();
    OthersKeysLate();
  }

  /** Written in ASCII only. */
  predicate Ascii(s: string) {
    forall i | 0 <= i < |s| :: s[i] as int < 0x80
  }

  lemma {:induction false} AsciiNoCjk(s: string)
    requires Ascii(s)
    ensures !HasCjk(s)
  {
    if |s| > 0 {
      AsciiNoCjk(s[1..]);
    }
  }

  lemma LanguagesEarlyAscii(t: string) requires t in LanguagesEarly ensures Ascii(t) {}
  lemma LanguagesLateAscii(t: string) requires t in LanguagesLate ensures Ascii(t) {}

  /** No language name contains a CJK ideograph: the names are ASCII. */
  lemma LanguageNotCjk(t: string)
    ensures t in LanguageTags ==> !HasCjk(t)
  {
    LanguageHalves();
    if t in LanguagesEarly {
      LanguagesEarlyAscii(t);
      AsciiNoCjk(t);
    } else if t in LanguagesLate {
      LanguagesLateAscii(t);
      AsciiNoCjk(t);
    }
  }

  /** No language name is a dictionary key, so the language rule never hides
      a dictionary entry. */
  lemma NoLanguageKey(t: string)
    ensures t in LanguageTags ==> Lookup(t).None?
  {
    BasicGenresNoLanguage();
    EpicsNoLanguage();
    DramasNoLanguage();
    AdventuresNoLanguage();
    RomanceComedyNoLanguage();
    ThrillersNoLanguage();
    HorrorsNoLanguage();
    ActionCrimeNoLanguage();
    SciFiNoLanguage();
    FantasiesNoLanguage();
    CrimeKindsNoLanguage();
    OthersNoLanguage();
  }

  /** Every dictionary value is a non-empty list of separator-free tags. */
  lemma LookupWellFormed(tag: string)
    ensures Lookup(tag).Some? ==> |Lookup(tag).value| > 0 && forall t <- Lookup(tag).value :: Unseparated(t)
  {
    if tag in BasicGenres {
      BasicGenresWellFormed();
    } else if tag in Epics {
      EpicsWellFormed();
    } else if tag in Dramas {
      DramasWellFormed();
    } else if tag in Adventures {
      AdventuresWellFormed();
    } else if tag in RomanceComedy {
      RomanceComedyWellFormed();
    } else if tag in Thrillers {
      ThrillersWellFormed();
    } else if tag in Horrors {
      HorrorsWellFormed();
    } else if tag in ActionCrime {
      ActionCrimeWellFormed();
    } else if tag in SciFi {
      SciFiWellFormed();
    } else if tag in Fantasies {
      FantasiesWellFormed();
    } else if tag in CrimeKinds {
      CrimeKindsWellFormed();
    } else if tag in Others {
      OthersWellFormed();
    }
  }

  /** The tag is stripped before any rule looks at it. */
  lemma TranslateTrimsFirst(raw: string)
    ensures Translate(raw) == Translate(Trim(raw))
  {
    TrimIdempotent(raw);
  }

  /** Rule 2: a dictionary hit is returned verbatim and in order, and is
      never empty. The language rule before it never applies, since no key
      is a language name. */
  lemma DictionaryHitVerbatim(raw: string)
    requires Lookup(Trim(raw)).Some?
    ensures Translate(raw) == Lookup(Trim(raw)).value && Translate(raw) != []
  {
    NoLanguageKey(Trim(raw));
    LookupWellFormed(Trim(raw));
    TrimSpec(raw);
  }

  /** The result is empty exactly when the stripped tag is a language name, or
      is neither a dictionary key nor contains a CJK ideograph. */
  lemma TranslateEmptyIff(raw: string)
    ensures Translate(raw) == [] <==>
      (Trim(raw) in LanguageTags || (Lookup(Trim(raw)).None? && !HasCjk(Trim(raw))))
  {
    LookupWellFormed(Trim(raw));
    TrimSpec(raw);
  }

  /** Rule 3: a tag that is not a dictionary key but contains a CJK
      ideograph comes back alone and stripped. The language rule never
      applies to it, since the language names are ASCII. */
  lemma CjkPassThrough(raw: string)
    requires Lookup(Trim(raw)).None? && HasCjk(Trim(raw))
    ensures Translate(raw) == [Trim(raw)]
  {
    LanguageNotCjk(Trim(raw));
  }

  /** Every result is empty, a dictionary value, or the stripped tag itself,
      and in the last case that tag contains a CJK ideograph: untranslated
      English never comes out. A separator-free input gives separator-free tags. */

  lemma TranslateClosed(raw: string)
    ensures var r := Translate(raw);
      r == [] || (Lookup(Trim(raw)).Some? && r == Lookup(Trim(raw)).value)
      || (r == [Trim(raw)] && HasCjk(Trim(raw)))
    ensures Unseparated(raw) ==> forall t <- Translate(raw) :: Unseparated(t)
  {
    LookupWellFormed(Trim(raw));
    TrimSpec(raw);
  }

  /** A one-to-many decomposition, returned in the listed order, whatever
      whitespace surrounds the tag. */
  lemma TranslateDecomposes(raw: string)
    requires Trim(raw) == "Action Epic"
    ensures Translate(raw) == ["动作", "史诗"]
  {
    LookupActionEpic();
    DictionaryHitVerbatim(raw);
  }

  lemma LookupActionEpic()
    ensures Lookup("Action Epic") == Some(["动作", "史诗"])
  {
  }
}
