/**
 * `generateMirrorFallback`: the local reply used for the mirror personality
 * when the model returns nothing. It neutralises insults, mirrors shouting
 * and exclamation marks, trims short replies and never answers blank.
 */
module Mirror {
  import opened Text

  /** The insults replaced, in the order they are applied. */
  const Insults: seq<string> := ["trash", "idiot", "stupid", "dumb", "moron", "loser", "jerk"]
  /** What an insult becomes. */
  const Neutral: string := "there"
  /** The reply when everything else came out blank. */
  const Greeting: string := "Hey there."
  /** Replies whose trimmed form is at most this long (in UTF-16 units) are trimmed. */
  const ShortReply: int := 30

  /** A pattern word: a non-empty run of ASCII letters. */
  predicate IsPatternWord(w: string) {
    |w| > 0 && forall k :: 0 <= k < |w| ==> IsLetter(w[k])
  }

  lemma InsultsArePatternWords()
    ensures forall j :: 0 <= j < |Insults| ==> IsPatternWord(Insults[j])
  {
  }

  /** `\b` at position `i`: exactly one side of `i` is a word character. */
  predicate IsBoundary(s: string, i: int)
    requires 0 <= i <= |s|
  {
    (i > 0 && IsWordChar(s[i - 1])) != (i < |s| && IsWordChar(s[i]))
  }

  /** Equal up to ASCII case: what the `i` flag (without `u`) compares. */
  predicate SameIgnoringCase(a: string, b: string) {
    |a| == |b| && forall k :: 0 <= k < |a| ==> UpperChar(a[k]) == UpperChar(b[k])
  }

  /** The regular expression `\b<w>\b` with the `i` flag matches at `i`. */
  predicate MatchAt(s: string, w: string, i: nat) {
    && i + |w| <= |s|
    && IsBoundary(s, i)
    && SameIgnoringCase(s[i..i + |w|], w)
    && IsBoundary(s, i + |w|)
  }

  /** A match covers word characters only. */
  lemma MatchIsWord(s: string, w: string, i: nat)
    requires IsPatternWord(w) && MatchAt(s, w, i)
    ensures forall k :: i <= k < i + |w| ==> IsLetter(s[k])
  {
    forall k | i <= k < i + |w| ensures IsLetter(s[k]) {
      assert s[i..i + |w|][k - i] == s[k];
      assert IsLetter(w[k - i]);
    }
  }

  /** The global replace from position `i` on: each match, scanning left to
      right, becomes `Neutral`; every other character is copied. */
  function ReplaceFrom(s: string, w: string, i: nat): string
    requires |w| > 0 && i <= |s|
    decreases |s| - i
  {
    if i == |s| then []
    else if MatchAt(s, w, i) then Neutral + ReplaceFrom(s, w, i + |w|)
    else [s[i]] + ReplaceFrom(s, w, i + 1)
  }

  /** `s.replace(/\b<w>\b/gi, "there")`. */
  function ReplaceWord(s: string, w: string): string
    requires |w| > 0
  {
    ReplaceFrom(s, w, 0)
  }

  /** Each word of `words` replaced in turn. */
  function SanitizeWith(s: string, words: seq<string>): string
    requires forall j :: 0 <= j < |words| ==> IsPatternWord(words[j])
    decreases |words|
  {
    if words == [] then s
    else
      assert IsPatternWord(words[0]);
      SanitizeWith(ReplaceWord(s, words[0]), words[1..])
  }

  /** The message with every insult neutralised. Sanitising keeps the
      message's blankness, its exclamation marks, and the presence of a
      lower-case letter. */
  function Sanitize(message: string): (cleaned: string)
    ensures AllSpace(cleaned) <==> AllSpace(message)
    ensures Count('!', cleaned) == Count('!', message)
    ensures HasLower(message) ==> HasLower(cleaned)
  {
    InsultsArePatternWords();
    var cleaned := SanitizeWith(message, Insults);
    SanitizeKeepsBlankness(message, Insults);
    SanitizeKeepsSeparators(message, Insults);
    CountViaSeparators('!', message);
    CountViaSeparators('!', cleaned);
    SanitizeKeepsLowerIf(message, Insults);
    cleaned
  }

  /** The non-word characters of `s`, in order. */
  function Separators(s: string): string {
    if s == [] then [] else (if IsWordChar(s[0]) then [] else [s[0]]) + Separators(s[1..])
  }

  lemma {:induction false} SeparatorsAppend(x: string, y: string)
    ensures Separators(x + y) == Separators(x) + Separators(y)
  {
    if x == [] {
      assert x + y == y;
    } else {
      assert (x + y)[1..] == x[1..] + y;
      SeparatorsAppend(x[1..], y);
    }
  }

  lemma {:induction false} SeparatorsOfWord(x: string)
    requires forall k :: 0 <= k < |x| ==> IsWordChar(x[k])
    ensures Separators(x) == []
  {
    if x != [] {
      SeparatorsOfWord(x[1..]);
    }
  }

  lemma {:induction false} CountViaSeparators(c: char, x: string)
    requires !IsWordChar(c)
    ensures Count(c, x) == Count(c, Separators(x))
  {
    if x != [] {
      CountViaSeparators(c, x[1..]);
      var first := if IsWordChar(x[0]) then [] else [x[0]];
      CountAppend(c, first, Separators(x[1..]));
    }
  }

  lemma MatchedSeparators(s: string, w: string, i: nat)
    requires IsPatternWord(w) && MatchAt(s, w, i)
    ensures Separators(s[i..]) == Separators(s[i + |w|..])
  {
    MatchIsWord(s, w, i);
    var word, rest := s[i..i + |w|], s[i + |w|..];
    assert s[i..] == word + rest;
    SeparatorsAppend(word, rest);
    SeparatorsOfWord(word);
  }

  lemma MatchStepSeparators(s: string, w: string, i: nat)
    requires IsPatternWord(w) && i < |s| && MatchAt(s, w, i)
    requires Separators(ReplaceFrom(s, w, i + |w|)) == Separators(s[i + |w|..])
    ensures Separators(ReplaceFrom(s, w, i)) == Separators(s[i..])
  {
    var rest := ReplaceFrom(s, w, i + |w|);
    assert ReplaceFrom(s, w, i) == Neutral + rest;
    MatchedSeparators(s, w, i);
    SeparatorsAppend(Neutral, rest);
    SeparatorsOfWord(Neutral);
  }

  lemma CopyStepSeparators(s: string, w: string, i: nat)
    requires |w| > 0 && i < |s| && !MatchAt(s, w, i)
    requires Separators(ReplaceFrom(s, w, i + 1)) == Separators(s[i + 1..])
    ensures Separators(ReplaceFrom(s, w, i)) == Separators(s[i..])
  {
    var rest := ReplaceFrom(s, w, i + 1);
    assert ReplaceFrom(s, w, i) == [s[i]] + rest;
    assert s[i..] == [s[i]] + s[i + 1..];
    SeparatorsAppend([s[i]], s[i + 1..]);
    SeparatorsAppend([s[i]], rest);
  }

  /** Replacing keeps every punctuation mark and space, in order. */
  lemma {:induction false} ReplaceKeepsSeparators(s: string, w: string, i: nat)
    requires IsPatternWord(w) && i <= |s|
    ensures Separators(ReplaceFrom(s, w, i)) == Separators(s[i..])
    decreases |s| - i
  {
    if i == |s| {
      assert s[i..] == [];
    } else if MatchAt(s, w, i) {
      ReplaceKeepsSeparators(s, w, i + |w|);
      MatchStepSeparators(s, w, i);
    } else {
      ReplaceKeepsSeparators(s, w, i + 1);
      CopyStepSeparators(s, w, i);
    }
  }

  /** Replacing leaves a blank string as it is and never blanks a non-blank one. */
  lemma {:induction false} ReplaceKeepsBlankness(s: string, w: string, i: nat)
    requires IsPatternWord(w) && i <= |s|
    ensures AllSpace(ReplaceFrom(s, w, i)) <==> AllSpace(s[i..])
    decreases |s| - i
  {
    if i < |s| {
      assert s[i..] == [s[i]] + s[i + 1..];
      AllSpaceAppend([s[i]], s[i + 1..]);
      if MatchAt(s, w, i) {
        MatchIsWord(s, w, i);
        AllSpaceAppend(Neutral, ReplaceFrom(s, w, i + |w|));
        assert !IsSpace(Neutral[0]);
      } else {
        ReplaceKeepsBlankness(s, w, i + 1);
        AllSpaceAppend([s[i]], ReplaceFrom(s, w, i + 1));
      }
    }
  }

  /** Replacing never removes the last lower-case letter: a replaced insult
      is itself lower-case. */
  lemma {:induction false} ReplaceKeepsLower(s: string, w: string, i: nat)
    requires IsPatternWord(w) && i <= |s| && HasLower(s[i..])
    ensures HasLower(ReplaceFrom(s, w, i))
    decreases |s| - i
  {
    if MatchAt(s, w, i) {
      HasLowerAppend(Neutral, ReplaceFrom(s, w, i + |w|));
      assert IsLower(Neutral[0]);
    } else {
      assert s[i..] == [s[i]] + s[i + 1..];
      HasLowerAppend([s[i]], s[i + 1..]);
      HasLowerAppend([s[i]], ReplaceFrom(s, w, i + 1));
      if !IsLower(s[i]) {
        ReplaceKeepsLower(s, w, i + 1);
      }
    }
  }

  /** Text with no match is copied unchanged. */
  lemma {:induction false} ReplaceWithoutMatch(s: string, w: string, i: nat)
    requires |w| > 0 && i <= |s|
    requires forall j :: i <= j < |s| ==> !MatchAt(s, w, j)
    ensures ReplaceFrom(s, w, i) == s[i..]
    decreases |s| - i
  {
    if i < |s| {
      ReplaceWithoutMatch(s, w, i + 1);
      assert s[i..] == [s[i]] + s[i + 1..];
    }
  }

  /** No match starts at a position from `i` up to (excluding) `j`. */
  ghost predicate NoMatchBetween(s: string, w: string, i: nat, j: nat) {
    forall k :: i <= k < j ==> !MatchAt(s, w, k)
  }

  /** Up to the next match the text is copied; the match becomes `Neutral`,
      and the scan resumes right after it. */
  lemma {:induction false} ReplaceNextMatch(s: string, w: string, i: nat, j: nat)
    requires |w| > 0 && i <= j <= |s| && MatchAt(s, w, j)
    requires NoMatchBetween(s, w, i, j)
    ensures ReplaceFrom(s, w, i) == s[i..j] + Neutral + ReplaceFrom(s, w, j + |w|)
    decreases j - i
  {
    var tail := ReplaceFrom(s, w, j + |w|);
    if i == j {
      assert ReplaceFrom(s, w, i) == Neutral + tail;
      assert s[i..j] == [];
    } else {
      var rest := ReplaceFrom(s, w, i + 1);
      assert ReplaceFrom(s, w, i) == [s[i]] + rest by {
        assert !MatchAt(s, w, i);
      }
      assert rest == s[i + 1..j] + Neutral + tail by {
        assert NoMatchBetween(s, w, i + 1, j);
        ReplaceNextMatch(s, w, i + 1, j);
      }
      assert s[i..j] == [s[i]] + s[i + 1..j];
      PrependRegroups(s[i], s[i + 1..j], Neutral, tail);
    }
  }

  /** A character put in front of a three-part text joins its first part. */
  lemma PrependRegroups(c: char, a: string, b: string, t: string)
    ensures [c] + (a + b + t) == ([c] + a) + b + t
  {
  }

  lemma {:induction false} SanitizeKeepsSeparators(s: string, words: seq<string>)
    requires forall j :: 0 <= j < |words| ==> IsPatternWord(words[j])
    ensures Separators(SanitizeWith(s, words)) == Separators(s)
    decreases |words|
  {
    if words != [] {
      ReplaceKeepsSeparators(s, words[0], 0);
      assert s[0..] == s;
      SanitizeKeepsSeparators(ReplaceWord(s, words[0]), words[1..]);
    }
  }

  lemma {:induction false} SanitizeKeepsBlankness(s: string, words: seq<string>)
    requires forall j :: 0 <= j < |words| ==> IsPatternWord(words[j])
    ensures AllSpace(SanitizeWith(s, words)) <==> AllSpace(s)
    decreases |words|
  {
    if words != [] {
      ReplaceKeepsBlankness(s, words[0], 0);
      assert s[0..] == s;
      SanitizeKeepsBlankness(ReplaceWord(s, words[0]), words[1..]);
    }
  }

  lemma {:induction false} SanitizeKeepsLower(s: string, words: seq<string>)
    requires forall j :: 0 <= j < |words| ==> IsPatternWord(words[j])
    requires HasLower(s)
    ensures HasLower(SanitizeWith(s, words))
    decreases |words|
  {
    if words != [] {
      assert s[0..] == s;
      ReplaceKeepsLower(s, words[0], 0);
      SanitizeKeepsLower(ReplaceWord(s, words[0]), words[1..]);
    }
  }

  lemma SanitizeKeepsLowerIf(s: string, words: seq<string>)
    requires forall j :: 0 <= j < |words| ==> IsPatternWord(words[j])
    ensures HasLower(s) ==> HasLower(SanitizeWith(s, words))
  {
    if HasLower(s) {
      SanitizeKeepsLower(s, words);
    }
  }

  /** A message in which no insult occurs as a whole word is kept verbatim. */
  lemma {:induction false} SanitizeWithoutInsult(s: string, words: seq<string>)
    requires forall j :: 0 <= j < |words| ==> IsPatternWord(words[j])
    requires forall j, k :: 0 <= j < |words| && 0 <= k < |s| ==> !MatchAt(s, words[j], k)
    ensures SanitizeWith(s, words) == s
    decreases |words|
  {
    if words != [] {
      ReplaceWithoutMatch(s, words[0], 0);
      assert s[0..] == s;
      SanitizeWithoutInsult(s, words[1..]);
    }
  }

  /** The ASCII letters of `s` (`s.replace(/[^a-zA-Z]/g, "")`). */
  function Letters(s: string): (r: string)
    ensures forall k :: 0 <= k < |r| ==> IsLetter(r[k])
  {
    if s == [] then [] else (if IsLetter(s[0]) then [s[0]] else []) + Letters(s[1..])
  }

  lemma {:induction false} LettersAppend(a: string, b: string)
    ensures Letters(a + b) == Letters(a) + Letters(b)
  {
    if a != [] {
      assert (a + b)[0] == a[0];
      assert (a + b)[1..] == a[1..] + b;
      LettersAppend(a[1..], b);
    } else {
      assert a + b == b;
    }
  }

  lemma {:induction false} LettersOfWord(s: string)
    requires forall k :: 0 <= k < |s| ==> IsLetter(s[k])
    ensures Letters(s) == s
  {
    if s != [] {
      LettersOfWord(s[1..]);
    }
  }

  lemma {:induction false} LettersOfPunctuation(s: string)
    requires forall k :: 0 <= k < |s| ==> !IsLetter(s[k])
    ensures Letters(s) == []
  {
    if s != [] {
      LettersOfPunctuation(s[1..]);
    }
  }

  /** Every letter of the message is kept as often as it occurs, and
      nothing else is. */
  lemma {:induction false} LettersKeepCount(c: char, s: string)
    ensures Count(c, Letters(s)) == if IsLetter(c) then Count(c, s) else 0
  {
    if s != [] {
      LettersKeepCount(c, s[1..]);
      CountAppend(c, if IsLetter(s[0]) then [s[0]] else [], Letters(s[1..]));
    }
  }

  /** The number of ASCII capitals (`s.match(/[A-Z]/g).length`). */
  function UpperCount(s: string): (n: nat)
    ensures n <= |s|
    ensures n == |s| <==> forall k :: 0 <= k < |s| ==> IsUpper(s[k])
  {
    if s == [] then 0 else (if IsUpper(s[0]) then 1 else 0) + UpperCount(s[1..])
  }

  /** The count is zero exactly when the text has no capital. */
  lemma {:induction false} NoCapitals(s: string)
    ensures UpperCount(s) == 0 <==> forall k :: 0 <= k < |s| ==> !IsUpper(s[k])
  {
    if s != [] {
      NoCapitals(s[1..]);
      assert forall k :: 1 <= k < |s| ==> s[k] == s[1..][k - 1];
    }
  }

  lemma {:induction false} UpperCountAppend(a: string, b: string)
    ensures UpperCount(a + b) == UpperCount(a) + UpperCount(b)
  {
    if a != [] {
      assert (a + b)[0] == a[0];
      assert (a + b)[1..] == a[1..] + b;
      UpperCountAppend(a[1..], b);
    } else {
      assert a + b == b;
    }
  }

  lemma {:induction false} UpperCountOfCapitals(s: string)
    requires forall k :: 0 <= k < |s| ==> IsUpper(s[k])
    ensures UpperCount(s) == |s|
  {
    if s != [] {
      UpperCountOfCapitals(s[1..]);
    }
  }

  /** Counting capitals among the letters counts every capital of the text. */
  lemma {:induction false} CapitalsAreLetters(s: string)
    ensures UpperCount(Letters(s)) == UpperCount(s)
  {
    if s != [] {
      CapitalsAreLetters(s[1..]);
      UpperCountAppend(if IsLetter(s[0]) then [s[0]] else [], Letters(s[1..]));
    }
  }

  lemma {:induction false} ShoutingIsNotBlank(s: string)
    ensures UpperCount(s) > 0 ==> !AllSpace(s)
  {
    if UpperCount(s) > 0 && !IsUpper(s[0]) {
      ShoutingIsNotBlank(s[1..]);
      var i :| 0 <= i < |s[1..]| && !IsSpace(s[1..][i]);
      assert s[i + 1] == s[1..][i];
    }
  }

  /** More than 60% of the message's ASCII letters are upper-case, written
      without division; a message without letters has ratio 0. Shouting
      needs a capital, so a blank message never shouts. */
  function MostlyUpper(message: string): (b: bool)
    ensures b ==> exists k :: 0 <= k < |message| && IsUpper(message[k])
    ensures b ==> !AllSpace(message)
  {
    CapitalsAreLetters(message);
    NoCapitals(message);
    ShoutingIsNotBlank(message);
    5 * UpperCount(Letters(message)) > 3 * |Letters(message)|
  }

  /** Exclamation marks appended for `n` in the message: none for none,
      two for one, and three for more. */
  function Bangs(n: nat): (b: nat)
    ensures b == 0 <==> n == 0
    ensures n > 0 ==> 2 <= b <= 3
    ensures b == 2 <==> n == 1
  {
    if n == 0 then 0 else if n + 1 < 3 then n + 1 else 3
  }

  /** The sanitised text, trimmed when its trimmed form is short. It has
      the same trimmed form and blankness as the text; a short one comes
      out trimmed, a long one whole. */
  function Base(cleaned: string): (base: string)
    ensures Trim(base) == Trim(cleaned)
    ensures AllSpace(base) <==> AllSpace(cleaned)
    ensures Utf16Len(Trim(cleaned)) <= ShortReply ==> Trim(base) == base
    ensures Utf16Len(Trim(cleaned)) > ShortReply ==> base == cleaned
  {
    TrimIdempotent(cleaned);
    if Utf16Len(Trim(cleaned)) <= ShortReply then Trim(cleaned) else cleaned
  }

  /** `text` upper-cased when the message shouted. */
  function Cased(message: string, text: string): string {
    if MostlyUpper(message) then ToUpper(text) else text
  }

  /** The reply before the blank check, built from the message and its
      sanitised text: trimmed if short, shouted if the message shouted, with
      the exclamation marks appended last. */
  function Shape(message: string, cleaned: string): string {
    Cased(message, Base(cleaned)) + Repeat('!', Bangs(Count('!', message)))
  }

  /** The final safety net: an empty or blank reply becomes the greeting,
      any other reply is kept. The result is never blank. */
  function Finalize(reply: string): (r: string)
    ensures !AllSpace(r)
    ensures !AllSpace(reply) ==> r == reply
    ensures AllSpace(reply) ==> r == Greeting
  {
    assert !IsSpace(Greeting[0]);
    if reply == [] || Trim(reply) == [] then Greeting else reply
  }

  /** The mirror fallback. Whatever the message, the reply has a
      non-whitespace character. */
  function GenerateMirrorFallback(message: string): (reply: string)
    ensures !AllSpace(reply)
  {
    Finalize(Shape(message, Sanitize(message)))
  }

  /** The greeting has no exclamation mark and has a lower-case letter. */
  lemma GreetingFacts()
    ensures '!' !in Greeting
    ensures HasLower(Greeting)
  {
    assert IsLower(Greeting[1]);
  }

  /** The fallback is the shaped text unless that is blank. */
  lemma FallbackIsShape(message: string)
    ensures var shaped := Shape(message, Sanitize(message));
            GenerateMirrorFallback(message) == if AllSpace(shaped) then Greeting else shaped
  {
  }

  lemma ShapeKeepsNonBlank(message: string, cleaned: string)
    requires !AllSpace(cleaned)
    ensures !AllSpace(Shape(message, cleaned))
  {
    if MostlyUpper(message) {
      ToUpperKeepsNonBlank(Base(cleaned));
    }
    AllSpaceAppend(Cased(message, Base(cleaned)), Repeat('!', Bangs(Count('!', message))));
  }

  /** A non-blank message is never answered with the greeting: the shaped
      reply is used. */
  lemma NonBlankIsShaped(message: string)
    requires !AllSpace(message)
    ensures GenerateMirrorFallback(message) == Shape(message, Sanitize(message))
  {
    ShapeKeepsNonBlank(message, Sanitize(message));
    FallbackIsShape(message);
  }

  /** An empty or all-whitespace message is answered with the greeting. */
  lemma BlankGetsGreeting(message: string)
    requires AllSpace(message)
    ensures GenerateMirrorFallback(message) == Greeting
  {
    var cleaned := Sanitize(message);
    CountOfBlank('!', message);
    assert Shape(message, cleaned) == Base(cleaned) + [];
    FallbackIsShape(message);
  }

  /** Trimming and upper-casing keep every exclamation mark, and the marks
      appended come last. */
  lemma ShapeExclamations(message: string, cleaned: string)
    ensures var n := Count('!', message);
            var shaped := Shape(message, cleaned);
            && Count('!', shaped) == Count('!', cleaned) + Bangs(n)
            && shaped[|shaped| - Bangs(n)..] == Repeat('!', Bangs(n))
  {
    var b := Bangs(Count('!', message));
    var cased := Cased(message, Base(cleaned));
    var marks := Repeat('!', b);
    BodyKeepsMarks(message, cleaned);
    assert Shape(message, cleaned) == cased + marks;
    CountAppend('!', cased, marks);
    CountRepeat('!', b);
    assert (cased + marks)[|cased|..] == marks;
  }

  /** The reply's body, before the appended marks, has the sanitised text's
      exclamation marks. */
  lemma BodyKeepsMarks(message: string, cleaned: string)
    ensures Count('!', Cased(message, Base(cleaned))) == Count('!', cleaned)
  {
    var base := Base(cleaned);
    TrimKeepsCount('!', cleaned);
    if Utf16Len(Trim(cleaned)) <= ShortReply {
      assert base == Trim(cleaned);
    }
    if MostlyUpper(message) {
      ToUpperKeepsCount('!', base);
    }
  }

  /** The exclamation marks of the message are all kept, and when there are
      `n > 0` of them exactly `min(n + 1, 3)` more end the reply. */
  lemma ExclamationsAmplified(message: string)
    requires Count('!', message) > 0
    ensures var n := Count('!', message);
            var reply := GenerateMirrorFallback(message);
            && Count('!', reply) == n + Bangs(n)
            && reply[|reply| - Bangs(n)..] == Repeat('!', Bangs(n))
  {
    assert !AllSpace(message) by {
      var i :| 0 <= i < |message| && message[i] == '!';
    }
    ShapeExclamations(message, Sanitize(message));
    NonBlankIsShaped(message);
  }

  /** A message without an exclamation mark gets a reply without one. */
  lemma NoExclamationsAdded(message: string)
    requires Count('!', message) == 0
    ensures '!' !in GenerateMirrorFallback(message)
  {
    var shaped := Shape(message, Sanitize(message));
    var reply := GenerateMirrorFallback(message);
    FallbackIsShape(message);
    if AllSpace(shaped) {
      GreetingFacts();
    } else {
      assert reply == shaped;
      ShapeExclamations(message, Sanitize(message));
      assert Count('!', reply) == 0;
    }
  }

  /** A message that shouts gets a reply without a lower-case letter. */
  lemma ShoutingIsMirrored(message: string)
    requires MostlyUpper(message)
    ensures !HasLower(GenerateMirrorFallback(message))
  {
    var cleaned := Sanitize(message);
    NonBlankIsShaped(message);
    HasLowerAppend(ToUpper(Base(cleaned)), Repeat('!', Bangs(Count('!', message))));
  }

  lemma QuietShapeKeepsLower(message: string, cleaned: string)
    requires !MostlyUpper(message) && HasLower(cleaned)
    ensures HasLower(Shape(message, cleaned))
  {
    TrimKeepsLower(cleaned);
    HasLowerAppend(Base(cleaned), Repeat('!', Bangs(Count('!', message))));
  }

  /** A message that does not shout and has a lower-case letter gets a reply
      with one. */
  lemma QuietIsKept(message: string)
    requires !MostlyUpper(message) && HasLower(message)
    ensures HasLower(GenerateMirrorFallback(message))
  {
    var shaped := Shape(message, Sanitize(message));
    QuietShapeKeepsLower(message, Sanitize(message));
    if AllSpace(shaped) {
      BlankHasNoLower(shaped);
    }
    FallbackIsShape(message);
  }

  lemma ShapeOfShort(message: string, cleaned: string)
    requires !AllSpace(cleaned) && Utf16Len(Trim(cleaned)) <= ShortReply
    ensures var shaped := Shape(message, cleaned);
            && shaped == Cased(message, Trim(cleaned)) + Repeat('!', Bangs(Count('!', message)))
            && !IsSpace(shaped[0])
  {
    var base := Base(cleaned);
    var cased := Cased(message, base);
    assert base == Trim(cleaned) && base != [];
    assert cased[0] == UpperChar(base[0]) || cased[0] == base[0];
    assert Shape(message, cleaned)[0] == cased[0];
  }

  /** A reply whose trimmed sanitised text is at most 30 units long is that
      trimmed text, upper-cased if the message shouted, with the bangs
      appended; it starts with a non-whitespace character. A longer one is
      the whole sanitised text, cased the same way, never cut. */
  lemma ShortRepliesTrimmed(message: string)
    requires !AllSpace(message)
    ensures var cleaned := Sanitize(message);
            var reply := GenerateMirrorFallback(message);
            var bangs := Repeat('!', Bangs(Count('!', message)));
            && (Utf16Len(Trim(cleaned)) <= ShortReply ==>
                  reply == Cased(message, Trim(cleaned)) + bangs && !IsSpace(reply[0]))
            && (Utf16Len(Trim(cleaned)) > ShortReply ==> reply == Cased(message, cleaned) + bangs)
  {
    NonBlankIsShaped(message);
    if Utf16Len(Trim(Sanitize(message))) <= ShortReply {
      ShapeOfShort(message, Sanitize(message));
    }
  }
}
