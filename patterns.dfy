/**
 * The regular expressions of the command interpreter, written as scanners.
 *
 * Every expression the interpreter uses is an alternation of a few shapes:
 * literal words, `head.*tail`, words separated by `\s+`, `\d+\s*(units)` and
 * the one "i need to buy" phrase. `Span(p, t)` is the length of the match that
 * Python's backtracking engine reports for shape `p` at the start of `t`
 * (under `re.IGNORECASE`), or `None`. `Found` is `re.search(...)` used as a
 * truth value and `Erase` is `re.sub(..., '', ...)`.
 */
module Patterns {
  import opened Wrappers
  import opened Text
  import Lists

  /** A non-empty lower-case literal inside a pattern. */
  type Word = w: string | |w| > 0 && IsLowerCase(w) witness "a"

  datatype Pattern =
    | Words(words: seq<Word>)          // (w1|w2|...)
    | Gap(head: Word, tail: Word)      // head.*tail
    | Phrase(first: Word, rest: seq<Word>) // first\s+w2\s+...\s+wn
    | Numbered(units: seq<Word>)       // \d+\s*(u1|u2|...)
    | NeedToBuy                        // i\s+(?:need|want|should|must)\s+(?:to\s+)?(?:buy|get|purchase)

  /** An alternation of patterns, tried in order at each position. */
  type Regex = seq<Pattern>

  /** `w` matches the start of `t`, ignoring the case of `t`. */
  predicate PrefixCI(w: string, t: string)
    decreases |w|
  {
    w == [] || (t != [] && LowerChar(t[0]) == w[0] && PrefixCI(w[1..], t[1..]))
  }

  lemma {:induction false} PrefixCILength(w: string, t: string)
    requires PrefixCI(w, t)
    ensures |w| <= |t|
    ensures forall k :: 0 <= k < |w| ==> LowerChar(t[k]) == w[k]
  {
    if w != [] {
      PrefixCILength(w[1..], t[1..]);
    }
  }

  /** Length of the longest prefix of `t` whose characters satisfy `cls`. */
  function Run(t: string, cls: char -> bool): (n: nat)
    ensures n <= |t|
    ensures forall k :: 0 <= k < n ==> cls(t[k])
    ensures n < |t| ==> !cls(t[n])
  {
    Skip(t, 0, cls)
  }

  /** The end of the longest run of `cls` characters starting at index `i` of `t`. */
  function Skip(t: string, i: nat, cls: char -> bool): (r: nat)
    requires i <= |t|
    ensures i <= r <= |t|
    ensures forall k :: i <= k < r ==> cls(t[k])
    ensures r < |t| ==> !cls(t[r])
    decreases |t| - i
  {
    if i < |t| && cls(t[i]) then Skip(t, i + 1, cls) else i
  }

  /** `Skip` is the one end with all of `t[i..r]` in the class and `t[r]` outside it. */
  lemma SkipExact(t: string, cls: char -> bool, i: nat, r: nat)
    requires i <= r <= |t| && (forall k :: i <= k < r ==> cls(t[k])) && (r < |t| ==> !cls(t[r]))
    ensures Skip(t, i, cls) == r
  {
  }

  /** `(w1|w2|...)` at the start of `t`: the first listed word that matches. */
  function WordsSpan(words: seq<Word>, t: string): (r: Option<nat>)
    ensures r.Some? ==> 0 < r.value <= |t|
    ensures r.Some? <==> exists k :: 0 <= k < |words| && PrefixCI(words[k], t)
    ensures r.Some? ==> exists k :: 0 <= k < |words| && PrefixCI(words[k], t) && r.value == |words[k]| &&
                                   forall j :: 0 <= j < k ==> !PrefixCI(words[j], t)
  {
    if words == [] then None
    else if PrefixCI(words[0], t) then PrefixCILength(words[0], t); Some(|words[0]|)
    else
      var r := WordsSpan(words[1..], t);
      assert forall k :: 1 <= k < |words| ==> words[k] == words[1..][k - 1];
      r
  }

  /**
   * `.*tail` at the start of `s` (no newline crosses `.`): the greedy engine
   * ends the match after the LAST occurrence of `tail` on the current line.
   */
  function GapSpan(tail: Word, s: string): (r: Option<nat>)
    ensures r.Some? ==> |tail| <= r.value <= |s|
  {
    var later := if s != [] && s[0] != '\n' then GapSpan(tail, s[1..]) else None;
    if later.Some? then Some(1 + later.value)
    else if PrefixCI(tail, s) then PrefixCILength(tail, s); Some(|tail|)
    else None
  }

  /** `first\s+w2\s+...` at the start of `t`: each `\s+` takes the whole whitespace run. */
  function PhraseSpan(first: Word, rest: seq<Word>, t: string): (r: Option<nat>)
    ensures r.Some? ==> 0 < r.value <= |t|
    decreases |rest|
  {
    if !PrefixCI(first, t) then None
    else
      PrefixCILength(first, t);
      if rest == [] then Some(|first|)
      else
        var gap := Run(t[|first|..], IsSpace);
        if gap == 0 then None
        else
          var at := |first| + gap;
          match PhraseSpan(rest[0], rest[1..], t[at..])
          case None => None
          case Some(n) => Some(at + n)
  }

  /** `\d+\s*(u1|u2|...)` at the start of `t`: all digits, all whitespace, then a unit. */
  function NumberedSpan(units: seq<Word>, t: string): (r: Option<nat>)
    ensures r.Some? ==> 0 < r.value <= |t|
  {
    var digits := Run(t, IsDigit);
    if digits == 0 then None
    else
      var at := digits + Run(t[digits..], IsSpace);
      match WordsSpan(units, t[at..])
      case None => None
      case Some(n) => Some(at + n)
  }

  const Needs: seq<Word> := ["need", "want", "should", "must"]
  const Buys: seq<Word> := ["buy", "get", "purchase"]

  /** `(?:to\s+)?(?:buy|get|purchase)` at position `e` of `t`, the form with "to" tried first. */
  function BuyAt(t: string, e: nat): (r: Option<nat>)
    requires e <= |t|
    ensures r.Some? ==> e < r.value <= |t|
    ensures r.Some? ==> exists p :: e <= p <= |t| && WordsSpan(Buys, t[p..]).Some?
  {
    var withTo := PhraseSpan("to", [], t[e..]);
    var gap := if withTo.Some? then Run(t[e + 2..], IsSpace) else 0;
    var viaTo := if gap > 0 then WordsSpan(Buys, t[e + 2 + gap..]) else None;
    if viaTo.Some? then
      assert WordsSpan(Buys, t[e + 2 + gap..]).Some?;
      Some(e + 2 + gap + viaTo.value)
    else
      match WordsSpan(Buys, t[e..])
      case None => None
      case Some(m) => Some(e + m)
  }

  /**
   * `i\s+(?:need|want|should|must)\s+(?:to\s+)?(?:buy|get|purchase)` at the
   * start of `t`; the optional `to\s+` is tried first, then skipped.
   */
  function NeedToBuySpan(t: string): (r: Option<nat>)
    ensures r.Some? ==> 0 < r.value <= |t|
    ensures r.Some? ==> exists p :: 0 < p <= |t| && WordsSpan(Buys, t[p..]).Some?
  {
    if t == [] || LowerChar(t[0]) != 'i' then None
    else
      var gap1 := Run(t[1..], IsSpace);
      if gap1 == 0 then None
      else
        var b := 1 + gap1;
        match WordsSpan(Needs, t[b..])
        case None => None
        case Some(n) =>
          var c := b + n;
          var gap2 := Run(t[c..], IsSpace);
          if gap2 == 0 then None
          else
            BuyAt(t, c + gap2)
  }

  /** Length of the match of `p` at the start of `t`, if `p` matches there. */
  function Span(p: Pattern, t: string): (r: Option<nat>)
    ensures r.Some? ==> 0 < r.value <= |t|
  {
    match p
    case Words(words) => WordsSpan(words, t)
    case Gap(head, tail) =>
      if !PrefixCI(head, t) then None
      else
        PrefixCILength(head, t);
        var n := GapSpan(tail, t[|head|..]);
        if n.Some? then Some(|head| + n.value) else None
    case Phrase(first, rest) => PhraseSpan(first, rest, t)
    case Numbered(units) => NumberedSpan(units, t)
    case NeedToBuy => NeedToBuySpan(t)
  }

  /** The match of an alternation at the start of `t`: its first alternative that matches. */
  function AltSpan(re: Regex, t: string): (r: Option<nat>)
    ensures r.Some? ==> 0 < r.value <= |t|
    ensures r.Some? <==> exists k :: 0 <= k < |re| && Span(re[k], t).Some?
    ensures r.Some? ==> exists k :: 0 <= k < |re| && r == Span(re[k], t) &&
                                   forall j :: 0 <= j < k ==> Span(re[j], t).None?
  {
    if re == [] then None
    else if Span(re[0], t).Some? then Span(re[0], t)
    else
      var r := AltSpan(re[1..], t);
      assert forall k :: 1 <= k < |re| ==> re[k] == re[1..][k - 1];
      r
  }

  /** `re.search(re, t)` as a truth value: a match starts somewhere in `t`. */
  predicate Found(re: Regex, t: string)
    decreases |t|
  {
    AltSpan(re, t).Some? || (t != [] && Found(re, t[1..]))
  }

  /** The scanner agrees with "some position of `t` starts a match". */
  lemma {:induction false} FoundAt(re: Regex, t: string)
    ensures Found(re, t) <==> exists i :: 0 <= i <= |t| && AltSpan(re, t[i..]).Some?
  {
    if t != [] {
      FoundAt(re, t[1..]);
      if Found(re, t[1..]) {
        var i :| 0 <= i <= |t| - 1 && AltSpan(re, t[1..][i..]).Some?;
        assert t[1..][i..] == t[i + 1..];
      }
      if i :| 0 < i <= |t| && AltSpan(re, t[i..]).Some? {
        assert t[1..][i - 1..] == t[i..];
      }
    }
    assert t[0..] == t;
  }

  /** A match starting at position `i` is found. */
  lemma FoundFrom(re: Regex, t: string, i: nat)
    requires i <= |t| && AltSpan(re, t[i..]).Some?
    ensures Found(re, t)
  {
    FoundAt(re, t);
  }

  /** A lower-case word that occurs in `t` exactly also matches there ignoring case. */
  lemma {:induction false} StartsWithPrefixCI(w: Word, t: string)
    requires StartsWith(t, w)
    ensures PrefixCI(w, t)
  {
    StartsWithSlice(t, w);
    PrefixCIOfSlice(w, t);
  }

  lemma {:induction false} PrefixCIOfSlice(w: string, t: string)
    requires IsLowerCase(w) && |w| <= |t| && t[..|w|] == w
    ensures PrefixCI(w, t)
    decreases |w|
  {
    if w != [] {
      assert t[0] == w[0];
      assert t[1..][..|w| - 1] == w[1..];
      PrefixCIOfSlice(w[1..], t[1..]);
    }
  }

  /**
   * A literal of a `Words` alternative is found wherever it occurs, also
   * inside a longer word: the expressions have no word boundaries.
   */
  lemma FoundInside(re: Regex, j: nat, k: nat, t: string)
    requires j < |re| && re[j].Words? && k < |re[j].words|
    requires Contains(t, re[j].words[k])
    ensures Found(re, t)
  {
    var w := re[j].words[k];
    ContainsAt(t, w);
    var i :| OccursAt(t, w, i);
    assert t[i..][..|w|] == w;
    StartsWithSlice(t[i..], w);
    StartsWithPrefixCI(w, t[i..]);
    assert WordsSpan(re[j].words, t[i..]).Some?;
    assert Span(re[j], t[i..]).Some?;
    assert AltSpan(re, t[i..]).Some?;
    FoundAt(re, t);
  }

  // ---------------------------------------------------------------------------
  // Texts where no match starts

  /** `c` cannot be the first character of a match of `p`. */
  predicate CannotStart(p: Pattern, c: char) {
    match p
    case Words(words) => forall k :: 0 <= k < |words| ==> words[k][0] != LowerChar(c)
    case Gap(head, _) => head[0] != LowerChar(c)
    case Phrase(first, _) => first[0] != LowerChar(c)
    case Numbered(_) => !IsDigit(c)
    case NeedToBuy => LowerChar(c) != 'i'
  }

  /** A pattern never matches at a character that cannot start it. */
  lemma CannotStartSpan(p: Pattern, t: string)
    requires t != [] && CannotStart(p, t[0])
    ensures Span(p, t).None?
  {
    match p
    case Words(words) =>
      assert forall k :: 0 <= k < |words| ==> !PrefixCI(words[k], t);
    case Gap(head, _) =>
    case Phrase(first, _) =>
    case Numbered(_) =>
    case NeedToBuy =>
  }

  /** A word that differs from `t` at index `j`, or is longer than `t`, is not a prefix of it. */
  lemma MismatchNotPrefix(w: string, t: string, j: nat)
    requires j < |w| && (j >= |t| || LowerChar(t[j]) != w[j])
    ensures !PrefixCI(w, t)
  {
    if PrefixCI(w, t) {
      PrefixCILength(w, t);
    }
  }

  /** A `Words` pattern does not match where each word differs from `t` at the index `at` gives it. */
  lemma WordsMismatch(words: seq<Word>, t: string, at: seq<nat>)
    requires |at| == |words|
    requires forall k :: 0 <= k < |words| ==>
      at[k] < |words[k]| && (at[k] >= |t| || LowerChar(t[at[k]]) != words[k][at[k]])
    ensures WordsSpan(words, t).None?
  {
    forall k | 0 <= k < |words| ensures !PrefixCI(words[k], t) {
      MismatchNotPrefix(words[k], t, at[k]);
    }
  }

  /** An alternation never matches at a character that cannot start any alternative. */
  lemma CannotStartAlt(re: Regex, t: string)
    requires t != [] && forall k :: 0 <= k < |re| ==> CannotStart(re[k], t[0])
    ensures AltSpan(re, t).None?
  {
    forall k | 0 <= k < |re| ensures Span(re[k], t).None? {
      CannotStartSpan(re[k], t);
    }
  }

  /** No match of `re` starts anywhere in `t`. */
  predicate Nowhere(re: Regex, t: string) {
    forall i :: 0 <= i < |t| ==> AltSpan(re, t[i..]).None?
  }

  /** Where no match starts, `re.search` fails. */
  lemma NotFoundNowhere(re: Regex, t: string)
    requires Nowhere(re, t)
    ensures !Found(re, t)
  {
    FoundAt(re, t);
    assert t[|t|..] == [];
  }

  /** Where no match starts, `re.sub` deletes nothing. */
  lemma {:induction false} EraseNowhere(re: Regex, t: string)
    requires Nowhere(re, t)
    ensures Erase(re, t) == t
    decreases |t|
  {
    if t != [] {
      assert t[0..] == t;
      forall i | 0 <= i < |t| - 1 ensures AltSpan(re, t[1..][i..]).None? {
        assert t[1..][i..] == t[i + 1..];
      }
      EraseNowhere(re, t[1..]);
    }
  }

  /**
   * `re.sub(re, '', t)`: scanning left to right, each match found is deleted
   * and scanning resumes after it; other characters are kept.
   */
  function Erase(re: Regex, t: string): (r: string)
    ensures |r| <= |t|
    decreases |t|
  {
    if t == [] then []
    else match AltSpan(re, t)
      case Some(n) => Erase(re, t[n..])
      case None => [t[0]] + Erase(re, t[1..])
  }

  /**
   * The leftmost match is deleted: when the first match starts at `i` and is
   * `n` long, the text before it is kept and erasing goes on after it.
   */
  lemma EraseLeftmost(re: Regex, t: string, i: nat, n: nat)
    requires i <= |t| && forall j :: 0 <= j < i ==> AltSpan(re, t[j..]).None?
    requires AltSpan(re, t[i..]) == Some(n)
    ensures i + n <= |t| && Erase(re, t) == t[..i] + Erase(re, t[i + n..])
  {
    EraseKeepsUnmatched(re, t, i);
    assert t[i..][n..] == t[i + n..];
  }

  /** Characters where no match starts are kept, one after the other. */
  lemma {:induction false} EraseKeepsUnmatched(re: Regex, t: string, i: nat)
    requires i <= |t| && forall j :: 0 <= j < i ==> AltSpan(re, t[j..]).None?
    ensures Erase(re, t) == t[..i] + Erase(re, t[i..])
    decreases i
  {
    if i == 0 {
      assert t[0..] == t;
    } else {
      EraseKeepsUnmatched(re, t, i - 1);
      EraseKeepsOne(re, t, i - 1);
      AppendKept(t, i, Erase(re, t[i..]));
    }
  }

  /** Where no match starts at index `j`, the character there is kept. */
  lemma EraseKeepsOne(re: Regex, t: string, j: nat)
    requires j < |t| && AltSpan(re, t[j..]).None?
    ensures Erase(re, t[j..]) == [t[j]] + Erase(re, t[j + 1..])
  {
    assert t[j..][1..] == t[j + 1..];
  }

  lemma AppendKept(t: string, i: nat, e: string)
    requires 0 < i <= |t|
    ensures t[..i - 1] + ([t[i - 1]] + e) == t[..i] + e
  {
    assert t[..i - 1] + [t[i - 1]] == t[..i];
  }

  /** Whenever `re.search` succeeds, `re.sub` deletes at least one character. */
  lemma {:induction false} FoundShortens(re: Regex, t: string)
    requires Found(re, t)
    ensures |Erase(re, t)| < |t|
    decreases |t|
  {
    if AltSpan(re, t).None? {
      FoundShortens(re, t[1..]);
    }
  }

  /** Erasing only ever deletes characters: what is left keeps its order. */
  lemma {:induction false} EraseSubsequence(re: Regex, t: string)
    ensures Lists.IsSubsequence(Erase(re, t), t)
    decreases |t|
  {
    if t != [] {
      match AltSpan(re, t)
      case Some(n) =>
        EraseSubsequence(re, t[n..]);
        DropFrontSubsequence(Erase(re, t[n..]), t, n);
      case None =>
        EraseSubsequence(re, t[1..]);
        assert ([t[0]] + Erase(re, t[1..]))[1..] == Erase(re, t[1..]);
    }
  }

  lemma {:induction false} DropFrontSubsequence(a: string, t: string, n: nat)
    requires n <= |t| && Lists.IsSubsequence(a, t[n..])
    ensures Lists.IsSubsequence(a, t)
    decreases n
  {
    if n > 0 {
      assert t[1..][n - 1..] == t[n..];
      DropFrontSubsequence(a, t[1..], n - 1);
    }
  }

  // ---------------------------------------------------------------------------
  // Characters a match can never cover

  /**
   * No match of `p` covers the character `c`. Claimed only for the shapes
   * that are erased: literal words, phrases and amounts. (`.` in a `Gap`
   * covers nearly anything, and `NeedToBuy` is only ever searched for.)
   */
  predicate Avoids(p: Pattern, c: char) {
    !IsUpper(c) &&
    match p
    case Words(words) => forall k :: 0 <= k < |words| ==> c !in words[k]
    case Phrase(first, rest) => !IsSpace(c) && c !in first && forall k :: 0 <= k < |rest| ==> c !in rest[k]
    case Numbered(units) => !IsDigit(c) && !IsSpace(c) && forall k :: 0 <= k < |units| ==> c !in units[k]
    case Gap(_, _) => false
    case NeedToBuy => false
  }

  lemma PrefixCIAvoids(w: string, t: string, c: char)
    requires PrefixCI(w, t) && c !in w && !IsUpper(c)
    ensures |w| <= |t| && c !in t[..|w|]
  {
    PrefixCILength(w, t);
    assert forall k :: 0 <= k < |w| ==> w[k] in w;
  }

  lemma {:induction false} PhraseSpanAvoids(first: Word, rest: seq<Word>, t: string, c: char)
    requires PhraseSpan(first, rest, t).Some?
    requires !IsUpper(c) && !IsSpace(c) && c !in first && forall k :: 0 <= k < |rest| ==> c !in rest[k]
    ensures c !in t[..PhraseSpan(first, rest, t).value]
    decreases |rest|
  {
    PrefixCIAvoids(first, t, c);
    if rest != [] {
      var gap := Run(t[|first|..], IsSpace);
      var at := |first| + gap;
      assert c !in t[|first|..at] by {
        assert forall k :: 0 <= k < gap ==> t[|first|..at][k] == t[|first|..][k];
      }
      NotInJoin(t, |first|, at, c);
      PhraseSpanAvoids(rest[0], rest[1..], t[at..], c);
      var n := PhraseSpan(rest[0], rest[1..], t[at..]).value;
      assert t[at..][..n] == t[at..at + n];
      NotInJoin(t, at, at + n, c);
    }
  }

  /** `c` is absent from `t[..j]` when it is absent from both `t[..i]` and `t[i..j]`. */
  lemma NotInJoin(t: string, i: nat, j: nat, c: char)
    requires i <= j <= |t| && c !in t[..i] && c !in t[i..j]
    ensures c !in t[..j]
  {
    assert t[..j] == t[..i] + t[i..j];
  }

  lemma SpanAvoids(p: Pattern, t: string, c: char)
    requires Avoids(p, c) && Span(p, t).Some?
    ensures c !in t[..Span(p, t).value]
  {
    match p
    case Words(words) =>
      var k :| 0 <= k < |words| && PrefixCI(words[k], t) && Span(p, t).value == |words[k]|;
      PrefixCIAvoids(words[k], t, c);
    case Phrase(first, rest) =>
      PhraseSpanAvoids(first, rest, t, c);
    case Numbered(units) =>
      var digits := Run(t, IsDigit);
      var at := digits + Run(t[digits..], IsSpace);
      var w := WordsSpan(units, t[at..]);
      var k :| 0 <= k < |units| && PrefixCI(units[k], t[at..]) && w.value == |units[k]|;
      PrefixCIAvoids(units[k], t[at..], c);
      assert t[..at + w.value] == t[..digits] + t[digits..at] + t[at..][..w.value];
  }

  lemma OccurrencesSplit(a: string, b: string, c: char)
    ensures Occurrences(a + b, c) == Occurrences(a, c) + Occurrences(b, c)
  {
    if a == [] {
      assert a + b == b;
    } else {
      OccurrencesSplit(a[1..], b, c);
      assert (a + b)[1..] == a[1..] + b;
    }
  }

  lemma OccurrencesAbsent(a: string, c: char)
    requires c !in a
    ensures Occurrences(a, c) == 0
  {
    if a != [] {
      OccurrencesAbsent(a[1..], c);
    }
  }

  /** Erasing matches that never cover `c` keeps every occurrence of `c`. */
  lemma {:induction false} EraseKeepsChar(re: Regex, t: string, c: char)
    requires forall k :: 0 <= k < |re| ==> Avoids(re[k], c)
    ensures Occurrences(Erase(re, t), c) == Occurrences(t, c)
    decreases |t|
  {
    if t != [] {
      match AltSpan(re, t)
      case Some(n) =>
        MatchHoldsNoChar(re, t, c);
        EraseKeepsChar(re, t[n..], c);
      case None =>
        EraseKeepsChar(re, t[1..], c);
        assert ([t[0]] + Erase(re, t[1..]))[1..] == Erase(re, t[1..]);
    }
  }

  /** Dropping a match that never covers `c` keeps the count of `c`. */
  lemma MatchHoldsNoChar(re: Regex, t: string, c: char)
    requires forall k :: 0 <= k < |re| ==> Avoids(re[k], c)
    requires AltSpan(re, t).Some?
    ensures Occurrences(t[AltSpan(re, t).value..], c) == Occurrences(t, c)
  {
    var n := AltSpan(re, t).value;
    var k :| 0 <= k < |re| && AltSpan(re, t) == Span(re[k], t);
    SpanAvoids(re[k], t, c);
    OccurrencesCut(t, n, c);
    OccurrencesAbsent(t[..n], c);
  }

  lemma OccurrencesCut(t: string, n: nat, c: char)
    requires n <= |t|
    ensures Occurrences(t, c) == Occurrences(t[..n], c) + Occurrences(t[n..], c)
  {
    assert t == t[..n] + t[n..];
    OccurrencesSplit(t[..n], t[n..], c);
  }
}
