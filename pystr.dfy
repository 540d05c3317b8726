/**
  The handful of Python `str` operations the pipeline is built from, with
  Python's semantics: `strip()` removes the characters `str.isspace()`
  accepts, `split(sep)` keeps empty pieces and always yields at least one,
  `sep.join(parts)` puts the separator between consecutive parts only.
*/
module PyStr {

  /** `c.isspace()`: the ASCII controls 9-13 and 28-31, the space, and the
      Unicode separators (NEL, NBSP, the Ogham, general-punctuation and
      ideographic spaces). */
  predicate IsSpace(c: char) {
    var n := c as int;
    (9 <= n <= 13) || (28 <= n <= 32) || n == 0x85 || n == 0xA0 || n == 0x1680
    || (0x2000 <= n <= 0x200A) || n == 0x2028 || n == 0x2029 || n == 0x202F
    || n == 0x205F || n == 0x3000
  }

  /** An ASCII decimal digit (what `\d` and `int()` accept on these pages). */
  predicate IsDigit(c: char) {
    '0' <= c <= '9'
  }

  predicate AllDigits(s: string) {
    forall i | 0 <= i < |s| :: IsDigit(s[i])
  }

  /** `int(s)` for a string of ASCII digits. */
  function DigitsValue(s: string): (n: nat)
    requires AllDigits(s)
  {
    if |s| == 0 then 0
    else DigitsValue(s[..|s| - 1]) * 10 + (s[|s| - 1] as int - '0' as int)
  }

  /** The longest prefix of ASCII digits (a greedy `\d+`, or `\d*` when empty). */
  function DigitRun(s: string): (r: string)
    ensures AllDigits(r) && StartsWith(s, r)
    ensures |r| == |s| || !IsDigit(s[|r|])
  {
    if |s| > 0 && IsDigit(s[0]) then
      var t := DigitRun(s[1..]);
      assert s[..1 + |t|] == [s[0]] + s[1..][..|t|];
      [s[0]] + t
    else ""
  }

  /** A run of digits followed by a non-digit is exactly what `DigitRun` takes. */
  lemma {:induction false} DigitRunOf(d: string, x: string)
    requires AllDigits(d)
    requires |x| == 0 || !IsDigit(x[0])
    ensures DigitRun(d + x) == d
  {
    if |d| > 0 {
      assert (d + x)[1..] == d[1..] + x;
      DigitRunOf(d[1..], x);
    } else {
      assert d + x == x;
    }
  }

  /** `s.lstrip()`. */
  function TrimStart(s: string): string {
    if |s| > 0 && IsSpace(s[0]) then TrimStart(s[1..]) else s
  }

  /** `s.rstrip()`. */
  function TrimEnd(s: string): string {
    if |s| > 0 && IsSpace(s[|s| - 1]) then TrimEnd(s[..|s| - 1]) else s
  }

  /** `s.strip()`. */
  function Trim(s: string): string {
    TrimEnd(TrimStart(s))
  }

  /** lstrip() removes exactly the leading whitespace run: what is left is a
      suffix that does not start with whitespace, and all it cut is whitespace. */
  lemma {:induction false} TrimStartSpec(s: string)
    ensures |TrimStart(s)| <= |s| && TrimStart(s) == s[|s| - |TrimStart(s)|..]
    ensures forall k | 0 <= k < |s| - |TrimStart(s)| :: IsSpace(s[k])
    ensures |TrimStart(s)| > 0 ==> !IsSpace(TrimStart(s)[0])
  {
    if |s| > 0 && IsSpace(s[0]) {
      TrimStartSpec(s[1..]);
    }
  }

  /** rstrip() removes exactly the trailing whitespace run. */
  lemma {:induction false} TrimEndSpec(s: string)
    ensures |TrimEnd(s)| <= |s| && TrimEnd(s) == s[..|TrimEnd(s)|]
    ensures forall k | |TrimEnd(s)| <= k < |s| :: IsSpace(s[k])
    ensures |TrimEnd(s)| > 0 ==> !IsSpace(TrimEnd(s)[|TrimEnd(s)| - 1])
  {
    if |s| > 0 && IsSpace(s[|s| - 1]) {
      TrimEndSpec(s[..|s| - 1]);
    }
  }

  /** No whitespace at either end. */
  predicate Stripped(s: string) {
    |s| > 0 ==> !IsSpace(s[0]) && !IsSpace(s[|s| - 1])
  }

  /** strip() leaves no whitespace at either end, keeps only characters of
      `s`, and gives "" exactly for an all-whitespace string. */
  lemma TrimSpec(s: string)
    ensures Stripped(Trim(s))
    ensures forall ch | ch in Trim(s) :: ch in s
    ensures Trim(s) == "" <==> forall k | 0 <= k < |s| :: IsSpace(s[k])
  {
    var t := TrimStart(s);
    TrimStartSpec(s);
    TrimEndSpec(t);
    var r := TrimEnd(t);
    assert forall ch | ch in r :: ch in t;
    if |r| > 0 {
      assert r[0] == t[0];
    }
  }

  /** A string with no whitespace at either end is its own strip(). */
  lemma TrimOfTrimmed(s: string)
    requires Stripped(s)
    ensures Trim(s) == s
  {
  }

  /** strip() is idempotent. */
  lemma TrimIdempotent(s: string)
    ensures Trim(Trim(s)) == Trim(s)
  {
    TrimSpec(s);
    TrimOfTrimmed(Trim(s));
  }

  /** `s.split(c)` for a one-character separator. */
  function Split(s: string, c: char): (parts: seq<string>)
    ensures |parts| >= 1
    ensures forall p <- parts :: c !in p
  {
    if |s| == 0 then [""]
    else
      var rest := Split(s[1..], c);
      if s[0] == c then [""] + rest
      else [[s[0]] + rest[0]] + rest[1..]
  }

  /** A string without the separator splits into itself alone. */
  lemma {:induction false} SplitAbsent(s: string, c: char)
    requires c !in s
    ensures Split(s, c) == [s]
  {
    if |s| > 0 {
      SplitAbsent(s[1..], c);
      assert [s[0]] + s[1..] == s;
    }
  }

  /** A character absent from the string is absent from every piece. */
  lemma {:induction false} SplitAvoids(s: string, c: char, ch: char)
    requires ch !in s
    ensures forall p <- Split(s, c) :: ch !in p
  {
    if |s| > 0 {
      assert ch !in s[1..] by {
        forall x | x in s[1..] ensures x in s {
        }
      }
      SplitAvoids(s[1..], c, ch);
    }
  }

  /** `sep.join(parts)`. */
  function Join(parts: seq<string>, sep: string): string
  {
    if |parts| == 0 then ""
    else if |parts| == 1 then parts[0]
    else parts[0] + sep + Join(parts[1..], sep)
  }

  /** Joining the pieces of a split with the same separator gives the string back. */
  lemma {:induction false} JoinSplit(s: string, c: char)
    ensures Join(Split(s, c), [c]) == s
  {
    if |s| > 0 {
      var rest := Split(s[1..], c);
      JoinSplit(s[1..], c);
      if s[0] == c {
        assert Split(s, c) == [""] + rest;
        assert ([""] + rest)[1..] == rest;
      } else {
        var parts := [[s[0]] + rest[0]] + rest[1..];
        assert Split(s, c) == parts;
        if |rest| > 1 {
          assert parts[1..] == rest[1..];
          assert Join(rest, [c]) == rest[0] + [c] + Join(rest[1..], [c]);
        }
      }
    }
  }

  /** A prefix free of the separator is glued onto the first piece. */
  lemma {:induction false} SplitPrefix(p: string, t: string, c: char)
    requires c !in p
    ensures Split(p + t, c) == [p + Split(t, c)[0]] + Split(t, c)[1..]
  {
    if |p| > 0 {
      SplitPrefix(p[1..], t, c);
      assert (p + t)[1..] == p[1..] + t;
      assert [p[0]] + (p[1..] + Split(t, c)[0]) == p + Split(t, c)[0];
    } else {
      assert p + t == t;
      assert p + Split(t, c)[0] == Split(t, c)[0];
      assert Split(t, c) == [Split(t, c)[0]] + Split(t, c)[1..];
    }
  }

  /** Splitting a join of separator-free parts gives the parts back. */
  lemma {:induction false} SplitJoin(parts: seq<string>, c: char)
    requires |parts| >= 1
    requires forall p <- parts :: c !in p
    ensures Split(Join(parts, [c]), c) == parts
  {
    if |parts| == 1 {
      SplitPrefix(parts[0], "", c);
      assert parts[0] + "" == parts[0];
    } else {
      var tail := Join(parts[1..], [c]);
      SplitJoin(parts[1..], c);
      assert Join(parts, [c]) == parts[0] + ([c] + tail);
      SplitPrefix(parts[0], [c] + tail, c);
      assert ([c] + tail)[1..] == tail;
      assert Split([c] + tail, c) == [""] + Split(tail, c);
      assert parts[0] + "" == parts[0];
      assert [parts[0]] + parts[1..] == parts;
    }
  }

  /** `[p.strip() for p in ps if p.strip()]`. */
  function KeepTrimmed(ps: seq<string>): (r: seq<string>)
    ensures forall t <- r :: t != "" && Stripped(t)
    ensures |r| <= |ps|
  {
    if |ps| == 0 then []
    else
      var t := Trim(ps[0]);
      TrimSpec(ps[0]);
      (if t == "" then [] else [t]) + KeepTrimmed(ps[1..])
  }

  /** Keeping the trimmed pieces of a longer list extends the kept list by
      at most the last piece. */
  lemma {:induction false} KeepTrimmedSnoc(ps: seq<string>, x: string)
    ensures KeepTrimmed(ps + [x]) == KeepTrimmed(ps) + (if Trim(x) == "" then [] else [Trim(x)])
  {
    if |ps| > 0 {
      assert (ps + [x])[1..] == ps[1..] + [x];
      KeepTrimmedSnoc(ps[1..], x);
    }
  }

  /** Pieces that are already non-blank and stripped are all kept as they are. */
  lemma {:induction false} KeepTrimmedOfStripped(ps: seq<string>)
    requires forall p <- ps :: p != "" && Stripped(p)
    ensures KeepTrimmed(ps) == ps
  {
    if |ps| > 0 {
      TrimOfTrimmed(ps[0]);
      assert forall p <- ps[1..] :: p in ps;
      KeepTrimmedOfStripped(ps[1..]);
    }
  }

  /** `[p.strip() for p in s.split(c) if p.strip()]`: the non-blank pieces. */
  function Pieces(s: string, c: char): (r: seq<string>)
    ensures forall t <- r :: t != "" && Stripped(t) && c !in t
  {
    PiecesFree(Split(s, c), c);
    KeepTrimmed(Split(s, c))
  }

  /** Stripping and dropping pieces keeps a character that no piece holds out. */
  lemma {:induction false} PiecesFree(ps: seq<string>, c: char)
    requires forall p <- ps :: c !in p
    ensures forall t <- KeepTrimmed(ps) :: c !in t
  {
    if |ps| > 0 {
      TrimSpec(ps[0]);
      PiecesFree(ps[1..], c);
    }
  }

  /** A one-character ASCII lower-casing step (`str.lower()` on ASCII). */
  function LowerChar(c: char): char {
    if 'A' <= c <= 'Z' then (c as int + 32) as char else c
  }

  /** `s.lower()` restricted to ASCII letters. */
  function Lower(s: string): string {
    seq(|s|, i requires 0 <= i < |s| => LowerChar(s[i]))
  }

  predicate StartsWith(s: string, prefix: string) {
    |prefix| <= |s| && s[..|prefix|] == prefix
  }

  predicate EndsWith(s: string, suffix: string) {
    |suffix| <= |s| && s[|s| - |suffix|..] == suffix
  }

  /** `sub` occurs in `s` at index `i`. */
  predicate OccursAt(s: string, sub: string, i: int) {
    0 <= i && i + |sub| <= |s| && s[i..i + |sub|] == sub
  }

  /** `sub in s`. */
  predicate Contains(s: string, sub: string) {
    exists i | 0 <= i <= |s| - |sub| :: OccursAt(s, sub, i)
  }

  /** An occurrence in the tail is an occurrence one further on. */
  lemma OccursShift(s: string, pat: string, j: int)
    requires |s| > 0 && OccursAt(s[1..], pat, j)
    ensures OccursAt(s, pat, j + 1)
  {
    assert s[j + 1..j + 1 + |pat|] == s[1..][j..j + |pat|];
  }

  /** The index of the first `c` in `s`, or `|s|` when there is none: where
      `split(c, 1)` cuts. */
  function IndexOf(s: string, c: char): (i: nat)
    ensures i <= |s|
    ensures i < |s| ==> s[i] == c
    ensures c !in s[..i]
  {
    if |s| == 0 || s[0] == c then 0
    else
      var i := 1 + IndexOf(s[1..], c);
      assert s[..i] == [s[0]] + s[1..][..i - 1];
      i
  }

  /** `s.rfind(c)`. */
  function LastIndexOf(s: string, c: char): (i: int)
    ensures -1 <= i < |s|
    ensures i >= 0 ==> s[i] == c
    ensures forall k | i < k < |s| :: s[k] != c
  {
    if |s| == 0 then -1
    else if s[|s| - 1] == c then |s| - 1
    else LastIndexOf(s[..|s| - 1], c)
  }

  /** `s.split(c, 1)[0]`: everything before the first `c`. */
  function Before(s: string, c: char): (r: string)
    ensures c !in r
    ensures StartsWith(s, r)
    ensures |r| < |s| <==> c in s
  {
    var i := IndexOf(s, c);
    assert s[..|s|] == s;
    s[..i]
  }

  /** Without `c`, nothing is cut. */
  lemma BeforeAbsent(s: string, c: char)
    requires c !in s
    ensures Before(s, c) == s
  {
    assert s[..|s|] == s;
  }

  /** The cut is at the first `c`. */
  lemma BeforeFirst(s: string, c: char, i: nat)
    requires i < |s| && s[i] == c && c !in s[..i]
    ensures Before(s, c) == s[..i]
  {
  }

  /** The last `c` is at `i` when `c` occurs at `i` and nowhere after. */
  lemma LastIndexOfIs(s: string, c: char, i: int)
    requires 0 <= i < |s| && s[i] == c
    requires forall k | i < k < |s| :: s[k] != c
    ensures LastIndexOf(s, c) == i
  {
  }

  /** `lower()` leaves a string without capitals unchanged. */
  lemma LowerNoCapitals(s: string)
    requires forall k | 0 <= k < |s| :: !('A' <= s[k] <= 'Z')
    ensures Lower(s) == s
  {
  }

  /** `s.split(c, 1)[1]`, defined when `c in s`. */
  function After(s: string, c: char): (r: string)
    requires c in s
    ensures s == Before(s, c) + [c] + r
  {
    var i := IndexOf(s, c);
    assert s == s[..i] + [s[i]] + s[i + 1..];
    s[i + 1..]
  }

  /** `s.replace(pat, rep)`: left to right, non-overlapping. */
  function Replace(s: string, pat: string, rep: string): string
    requires |pat| > 0
    decreases |s|
  {
    if |s| == 0 then ""
    else if StartsWith(s, pat) then rep + Replace(s[|pat|..], pat, rep)
    else [s[0]] + Replace(s[1..], pat, rep)
  }

  /** Replacing a pattern whose first character never occurs changes nothing. */
  lemma {:induction false} ReplaceAbsent(s: string, pat: string, rep: string)
    requires |pat| > 0 && pat[0] !in s
    ensures Replace(s, pat, rep) == s
  {
    if |s| > 0 {
      assert |pat| <= |s| ==> s[..|pat|][0] == s[0];
      assert pat[0] !in s[1..] by {
        forall ch | ch in s[1..] ensures ch in s {
        }
      }
      ReplaceAbsent(s[1..], pat, rep);
    }
  }

  /** A character absent from every part and from the separator is absent from the join. */
  lemma {:induction false} JoinAvoids(parts: seq<string>, sep: string, ch: char)
    requires forall p <- parts :: ch !in p
    requires ch !in sep
    ensures ch !in Join(parts, sep)
  {
    if |parts| > 1 {
      JoinAvoids(parts[1..], sep, ch);
    }
  }

  /** Every element with a space in front. */
  function Spaced(parts: seq<string>): (r: seq<string>)
    ensures |r| == |parts|
    ensures forall i | 0 <= i < |parts| :: r[i] == " " + parts[i]
  {
    if |parts| == 0 then [] else [" " + parts[0]] + Spaced(parts[1..])
  }

  /** A space before a join on `c` followed by a space is the join on `c`
      of the spaced parts. */
  lemma {:induction false} SpacedJoin(parts: seq<string>, c: char)
    requires |parts| >= 1
    ensures " " + Join(parts, [c, ' ']) == Join(Spaced(parts), [c])
  {
    if |parts| > 1 {
      SpacedJoin(parts[1..], c);
      assert Spaced(parts)[1..] == Spaced(parts[1..]);
      calc {
        " " + Join(parts, [c, ' ']);
        " " + (parts[0] + [c, ' '] + Join(parts[1..], [c, ' ']));
        (" " + parts[0]) + [c] + (" " + Join(parts[1..], [c, ' ']));
        Join(Spaced(parts), [c]);
      }
    }
  }

  /** Spacing keeps every character but the space out. */
  lemma {:induction false} SpacedFree(parts: seq<string>, c: char)
    requires c != ' '
    requires forall p <- parts :: c !in p
    ensures forall p <- Spaced(parts) :: c !in p
  {
    forall i | 0 <= i < |parts| ensures c !in Spaced(parts)[i] {
      assert parts[i] in parts;
    }
  }

  /** Splitting on `c` a join of `c`-free parts on `c` and a space gives the
      parts back, all but the first with the space in front. */
  lemma {:induction false} SplitSpacedJoin(parts: seq<string>, c: char)
    requires |parts| >= 1 && c != ' '
    requires forall p <- parts :: c !in p
    ensures Split(Join(parts, [c, ' ']), c) == [parts[0]] + Spaced(parts[1..])
  {
    var ps := [parts[0]] + Spaced(parts[1..]);
    HeadSpacedJoin(parts, c);
    assert forall p <- ps :: c !in p by {
      assert forall p <- parts[1..] :: p in parts;
      assert parts[0] in parts;
      SpacedFree(parts[1..], c);
    }
    SplitJoin(ps, c);
  }

  /** The join on `c` and a space is the join on `c` with the spaces moved
      into the parts. */
  lemma {:induction false} HeadSpacedJoin(parts: seq<string>, c: char)
    requires |parts| >= 1
    ensures Join(parts, [c, ' ']) == Join([parts[0]] + Spaced(parts[1..]), [c])
  {
    if |parts| > 1 {
      var tail := Join(parts[1..], [c, ' ']);
      var ps := [parts[0]] + Spaced(parts[1..]);
      assert Join(parts, [c, ' ']) == parts[0] + ([c, ' '] + tail);
      assert Join(ps, [c]) == parts[0] + ([c] + (" " + tail)) by {
        assert ps[1..] == Spaced(parts[1..]);
        SpacedJoin(parts[1..], c);
      }
      assert [c] + (" " + tail) == [c, ' '] + tail;
    }
  }

  /** A non-blank stripped string with a space in front strips back to itself. */
  lemma TrimSpaced(g: string)
    requires g != "" && Stripped(g)
    ensures Trim(" " + g) == g
  {
    var s := " " + g;
    assert IsSpace(s[0]) && s[1..] == g;
    assert TrimStart(s) == TrimStart(g) == g;
    TrimOfTrimmed(g);
  }

  /** Keeping the trimmed non-blank pieces of stripped parts, all but the
      first spaced, gives the parts back. */
  lemma {:induction false} KeepTrimmedSpaced(parts: seq<string>)
    requires forall p <- parts :: p != "" && Stripped(p)
    ensures KeepTrimmed(Spaced(parts)) == parts
  {
    if |parts| > 0 {
      assert parts[0] in parts;
      TrimSpaced(parts[0]);
      assert Spaced(parts)[1..] == Spaced(parts[1..]);
      assert forall p <- parts[1..] :: p in parts;
      KeepTrimmedSpaced(parts[1..]);
    }
  }
}
