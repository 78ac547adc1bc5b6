/**
 * Worked examples of the chat route and of the mirror fallback, proved as
 * lemmas.
 */
module Scenarios {
  import opened Text
  import opened Personality
  import Mirror
  import opened Gateway

  /** A message without a personality is handled as "friendly" at
      temperature 0.9, and the model's "Hi!" is returned as it is. */
  lemma HelloIsAnsweredAsFriendly(provider: nat -> ProviderReply)
    requires provider(0) == ProviderReply(true, 200, "", Some("Hi!"))
    ensures var x := HandleChat(ChatBody(Str("Hello"), Undefined), KeyConfig(true, false), provider);
            && x.response == Reply("Hi!")
            && x.calls == 1
            && x.request == Some(ProviderRequest(Friendly, "Hello", 9, 1024))
  {
    var body := ChatBody(Str("Hello"), Undefined);
    assert !IsSpace("Hello"[0]);
    assert Validate(body) == Accepted("Hello", Friendly);
    FirstAnswerUsed(body, KeyConfig(true, false), provider, 0);
    assert !IsSpace("Hi!"[0]);
  }

  /** A non-blank message of more than 2000 characters, all in the Basic
      Multilingual Plane, is refused as too long before any call. */
  lemma OverlongMessageRefused(m: string, personality: JsValue, keys: KeyConfig, provider: nat -> ProviderReply)
    requires |m| > MaxMessageLength && !AllSpace(m)
    requires forall i :: 0 <= i < |m| ==> m[i] as int < 0x1_0000
    ensures var x := HandleChat(ChatBody(Str(m), personality), keys, provider);
            x.response == BadRequest(MessageTooLong) && x.calls == 0
  {
    assert Utf16Len(m) == |m|;
    assert Validate(ChatBody(Str(m), personality)) == Refused(MessageTooLong);
  }

  /** `sub` occurs in `s` at position `i`. */
  lemma FoundAt(s: string, sub: string, i: nat)
    requires i + |sub| <= |s| && s[i..i + |sub|] == sub
    ensures Contains(s, sub)
  {
    assert sub <= s[i..];
  }

  /** An error that begins "API key", as the provider's key errors do, is
      classified as a key error (401), not as an overload (503). */
  lemma KeyErrorIsUnauthorized(e: string)
    requires |e| >= 7 && e[..7] == "API key"
    ensures ClassifyFailure(e) == Unauthorized
  {
    var l := ToLower(e);
    assert e != OverloadMarker by {
      assert e[3] != OverloadMarker[3];
    }
    assert l[..7] == "api key" by {
      assert forall i :: 0 <= i < 7 ==> l[i] == LowerChar(e[i]);
    }
    FoundAt(l, "api key", 0);
  }

  /** An error that merely begins "Invalid", whatever it is about, is
      reported as a key error as well: the test is a substring match. */
  lemma InvalidArgumentIsUnauthorized(e: string)
    requires |e| >= 7 && e[..7] == "Invalid"
    ensures ClassifyFailure(e) == Unauthorized
  {
    var l := ToLower(e);
    assert e != OverloadMarker by {
      assert e[0] != OverloadMarker[0];
    }
    assert l[..7] == "invalid" by {
      assert forall i :: 0 <= i < 7 ==> l[i] == LowerChar(e[i]);
    }
    FoundAt(l, "invalid", 0);
  }

  /** A lower-case word followed by a space: the word is its letters, and
      it has no capital. */
  lemma {:induction false} WordLetters(w: string)
    requires forall k :: 0 <= k < |w| ==> IsLower(w[k])
    ensures Mirror.Letters(w + " ") == w && Mirror.UpperCount(w) == 0
  {
    Mirror.LettersAppend(w, " ");
    Mirror.LettersOfWord(w);
    Mirror.LettersOfPunctuation(" ");
    assert w + [] == w;
    Mirror.NoCapitals(w);
  }

  /** A lower-case word and a space in front of a text add the word to the
      text's letters. */
  lemma SpacedWordLetters(w: string, rest: string)
    requires forall k :: 0 <= k < |w| ==> IsLower(w[k])
    ensures Mirror.Letters(w + " " + rest) == w + Mirror.Letters(rest)
    ensures Mirror.UpperCount(w) == 0
  {
    WordLetters(w);
    Mirror.LettersAppend(w + " ", rest);
  }

  /** Three lower-case words, each followed by a space: the letters are the
      three words run together, none of them a capital. */
  lemma QuietLetters(q: string, a: string, b: string, c: string)
    requires q == a + " " + (b + " " + (c + " "))
    requires forall k :: 0 <= k < |a| ==> IsLower(a[k])
    requires forall k :: 0 <= k < |b| ==> IsLower(b[k])
    requires forall k :: 0 <= k < |c| ==> IsLower(c[k])
    ensures Mirror.Letters(q) == a + b + c
    ensures Mirror.UpperCount(a + b + c) == 0
  {
    WordLetters(c);
    SpacedWordLetters(b, c + " ");
    SpacedWordLetters(a, b + " " + (c + " "));
    assert a + (b + c) == a + b + c;
    QuietCapitals(a, b, c);
  }

  lemma QuietCapitals(a: string, b: string, c: string)
    requires Mirror.UpperCount(a) == 0 && Mirror.UpperCount(b) == 0 && Mirror.UpperCount(c) == 0
    ensures Mirror.UpperCount(a + b + c) == 0
  {
    Mirror.UpperCountAppend(a, b);
    Mirror.UpperCountAppend(a + b, c);
  }

  /** A word of capitals followed by punctuation: the letters are the word,
      every one of them a capital. */
  lemma CapitalsThenMarks(w: string, marks: string)
    requires forall k :: 0 <= k < |w| ==> IsUpper(w[k])
    requires forall k :: 0 <= k < |marks| ==> !IsLetter(marks[k])
    ensures Mirror.Letters(w + marks) == w
    ensures Mirror.UpperCount(w) == |w|
  {
    Mirror.LettersOfWord(w);
    Mirror.LettersOfPunctuation(marks);
    Mirror.LettersAppend(w, marks);
    assert w + [] == w;
    Mirror.UpperCountOfCapitals(w);
  }

  lemma LoudLetters()
    ensures Mirror.Letters("STUPID!!!") == "STUPID"
    ensures Mirror.UpperCount("STUPID") == 6
  {
    assert "STUPID!!!" == "STUPID" + "!!!";
    CapitalsThenMarks("STUPID", "!!!");
  }

  /** The letters of a two-part message are each part's letters. */
  lemma TwoPartRatio(quiet: string, loud: string)
    requires Mirror.Letters(quiet) == "youareso" && Mirror.UpperCount("youareso") == 0
    requires Mirror.Letters(loud) == "STUPID" && Mirror.UpperCount("STUPID") == 6
    ensures !Mirror.MostlyUpper(quiet + loud)
  {
    Mirror.LettersAppend(quiet, loud);
    Mirror.UpperCountAppend("youareso", "STUPID");
  }

  lemma LoudParts(quiet: string, loud: string)
    requires quiet == "you are so " && loud == "STUPID!!!"
    ensures !Mirror.MostlyUpper(quiet + loud)
  {
    QuietLetters(quiet, "you", "are", "so");
    assert "you" + "are" + "so" == "youareso";
    LoudLetters();
    TwoPartRatio(quiet, loud);
  }

  lemma LoudInsultRatio(m: string)
    requires m == "you are so STUPID!!!"
    ensures !Mirror.MostlyUpper(m)
  {
    assert m == "you are so " + "STUPID!!!";
    LoudParts("you are so ", "STUPID!!!");
  }

  lemma LoudInsultHasLower(m: string)
    requires m == "you are so STUPID!!!"
    ensures HasLower(m)
  {
    assert IsLower(m[0]);
  }

  lemma LoudInsultMarks(m: string)
    requires m == "you are so STUPID!!!"
    ensures Count('!', m) == 3
  {
    var quiet, marks := "you are so STUPID", "!!!";
    assert m == quiet + marks;
    assert '!' !in quiet;
    assert marks == Repeat('!', 3);
    CountRepeat('!', 3);
    CountAppend('!', quiet, marks);
  }

  lemma LoudInsultReplyIsQuiet(m: string)
    requires m == "you are so STUPID!!!"
    ensures !Mirror.MostlyUpper(m)
    ensures HasLower(Mirror.GenerateMirrorFallback(m))
  {
    LoudInsultRatio(m);
    LoudInsultHasLower(m);
    Mirror.QuietIsKept(m);
  }

  lemma LoudInsultReplyMarks(m: string)
    requires m == "you are so STUPID!!!"
    ensures var reply := Mirror.GenerateMirrorFallback(m);
            Count('!', reply) == 6 && reply[|reply| - 3..] == "!!!"
  {
    LoudInsultMarks(m);
    Mirror.ExclamationsAmplified(m);
  }

  /** "you are so STUPID!!!" has six capitals among fourteen letters, below
      the sixty-per-cent bar: it does not count as shouting, so its mirror
      reply keeps lower case. Its three exclamation marks are kept and three
      more end the reply. */
  lemma LoudInsultIsNotShouting(m: string)
    requires m == "you are so STUPID!!!"
    ensures !Mirror.MostlyUpper(m)
    ensures HasLower(Mirror.GenerateMirrorFallback(m))
    ensures var reply := Mirror.GenerateMirrorFallback(m);
            Count('!', reply) == 6 && reply[|reply| - 3..] == "!!!"
  {
    LoudInsultReplyIsQuiet(m);
    LoudInsultReplyMarks(m);
  }
}
