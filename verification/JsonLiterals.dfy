/**
 Two walks through a string literal. The search for the closing quote pairs every backslash with the character behind
 it; the reader decodes escapes, which take two, six or twelve characters. Where an escape of six characters ends in
 the middle of a pair the walks part, and the reader can come to the closing quote with a backslash in its hand.
 */
module JsonLiterals {
  import opened Json

  // ----- The walks -----

  function PairStep(s: string, i: nat): nat
    requires i < |s|
  {
    if s[i] == '\\' then 2 else 1
  }

  /** The search for the closing quote gets from `i` to `k`. */
  predicate Pairs(s: string, i: nat, k: nat)
    requires k <= |s|
    decreases k - i
  {
    i == k || (i < k && Pairs(s, i + PairStep(s, i), k))
  }

  predicate EscapeU(s: string, i: nat) { i + 1 < |s| && s[i] == '\\' && s[i + 1] == 'u' }

  /** How far the reader goes on from `i`; nowhere when it fails there, or stands on the last character and that is a
      backslash. */
  function ReadStep(s: string, i: nat): (n: nat)
    requires i < |s|
    ensures i + n <= |s|
  {
    if s[i] != '\\' then 1
    else if i + 1 == |s| then 0
    else if s[i + 1] == 'u' then (var u := ReadUtf16(s[i..]); if u.BadLiteral? then 0 else u.len)
    else if SimpleEscape(s[i + 1]) == NUL then 0
    else 2
  }

  /** The reader gets from `i` to `k`. */
  predicate Reads(s: string, i: nat, k: nat)
    requires k <= |s|
    decreases k - i
  {
    i == k || (i < k && ReadStep(s, i) > 0 && Reads(s, i + ReadStep(s, i), k))
  }

  lemma {:induction false} PairsOn(s: string, i: nat, k: nat)
    requires k < |s| && Pairs(s, i, k) && k + PairStep(s, k) <= |s|
    ensures Pairs(s, i, k + PairStep(s, k))
    decreases k - i
  {
    if i < k { PairsOn(s, i + PairStep(s, i), k); }
  }

  lemma {:induction false} ReadsOn(s: string, i: nat, k: nat)
    requires k < |s| && Reads(s, i, k) && ReadStep(s, k) > 0
    ensures Reads(s, i, k + ReadStep(s, k))
    decreases k - i
  {
    if i < k { ReadsOn(s, i + ReadStep(s, i), k); }
  }

  /** The search stops at `b` or steps over it. */
  lemma {:induction false} PairsNear(s: string, i: nat, b: nat)
    requires i <= b <= |s|
    ensures Pairs(s, i, b) || (i < b && Pairs(s, i, b - 1) && s[b - 1] == '\\')
    decreases b - i
  {
    if i < b {
      var i' := i + PairStep(s, i);
      if i' <= b { PairsNear(s, i', b); }
    }
  }

  // ----- Literals -----

  /** `s` is the text between the quotes of a literal: the search for the closing quote ends right behind it. */
  predicate IsLiteral(s: string) { FindQuote(s + ['"']) == |s| }

  /** What is parsed as a string is such a text. */
  lemma ParsedIsLiteral(t: string)
    requires FindQuote(t) != -1
    ensures IsLiteral(t[..FindQuote(t)])
  {
    FoundAgain(t);
  }

  lemma {:induction false} FoundAgain(t: string)
    requires FindQuote(t) != -1
    ensures FindQuote(t[..FindQuote(t)] + ['"']) == FindQuote(t)
    decreases |t|
  {
    var n := FindQuote(t);
    var k := if t[0] == '"' then 0 else if t[0] == '\\' then 2 else 1;
    if k > 0 {
      FoundAgain(t[k..]);
      assert (t[..n] + ['"'])[k..] == t[k..][..n - k] + ['"'];
    }
  }

  /** From `i` on nothing but the closing quote is seen as one. */
  predicate ClosesFrom(s: string, i: nat)
    requires i <= |s|
  {
    FindQuote(s[i..] + ['"']) == |s| - i
  }

  lemma ClosesNext(s: string, i: nat)
    requires i < |s| && ClosesFrom(s, i)
    ensures i + PairStep(s, i) <= |s| && ClosesFrom(s, i + PairStep(s, i))
  {
    var t, n := s[i..] + ['"'], PairStep(s, i);
    assert t[0] == s[i];
    assert t[n..] == if i + n <= |s| then s[i + n..] + ['"'] else [];
  }

  lemma {:induction false} ClosesAt(s: string, i: nat, k: nat)
    requires k <= |s| && i <= |s| && ClosesFrom(s, i) && Pairs(s, i, k)
    ensures ClosesFrom(s, k)
    decreases k - i
  {
    if i < k {
      ClosesNext(s, i);
      ClosesAt(s, i + PairStep(s, i), k);
    }
  }

  /** Inside a literal every pair is complete. */
  lemma PairFits(s: string, k: nat)
    requires IsLiteral(s) && k < |s| && Pairs(s, 0, k)
    ensures k + PairStep(s, k) <= |s| && Pairs(s, 0, k + PairStep(s, k))
  {
    assert s[0..] == s;
    ClosesAt(s, 0, k);
    ClosesNext(s, k);
    PairsOn(s, 0, k);
  }

  // ----- Where the walks part -----

  predicate FourHex(s: string, i: nat)
    requires i + 6 <= |s|
  {
    HexValue(s[i + 2]) >= 0 && HexValue(s[i + 3]) >= 0 && HexValue(s[i + 4]) >= 0 && HexValue(s[i + 5]) >= 0
  }

  /** The reader takes six characters at `i` for an escape, though the four behind the `u` are not all digits. */
  predicate Short(s: string, i: nat) { EscapeU(s, i) && i + 6 <= |s| && !FourHex(s, i) }

  predicate Backslashes(s: string, i: nat, k: nat)
    requires k <= |s|
  {
    forall j :: i <= j < k ==> s[j] == '\\'
  }

  /** At `i + 5` the search pairs a backslash with the next character, and the reader steps between the two. Up to `k`
      there are only backslashes, which both walks take two by two. */
  predicate Slipped(s: string, i: nat, k: nat)
    requires k <= |s|
  {
    i + 6 <= k && Reads(s, 0, i) && Short(s, i) && Pairs(s, 0, i + 5) && Pairs(s, 0, k - 1) && Backslashes(s, i + 5, k)
  }

  lemma {:induction false} FourDigits(s: string, i: nat)
    requires IsLiteral(s) && i + 6 <= |s| && Pairs(s, 0, i + 2) && FourHex(s, i)
    ensures Pairs(s, 0, i + 6)
  {
    PairFits(s, i + 2);
    PairFits(s, i + 3);
    PairFits(s, i + 4);
    PairFits(s, i + 5);
  }

  lemma UStep(s: string, j: nat)
    requires EscapeU(s, j) && ReadStep(s, j) > 0
    ensures j + 6 <= |s| && (ReadStep(s, j) == 6 || ReadStep(s, j) == 12)
    ensures ReadStep(s, j) == 12 ==> FourHex(s, j) && EscapeU(s, j + 6) && FourHex(s, j + 6)
  {
    var t := s[j..];
    assert forall k :: 0 <= k < |t| ==> t[k] == s[j + k];
  }

  /** An escape with `u` of which the reader is sure of the first two characters. */
  lemma {:induction false} PastU(s: string, j: nat)
    requires IsLiteral(s) && EscapeU(s, j) && Reads(s, 0, j) && Pairs(s, 0, j + 2) && ReadStep(s, j) > 0
    ensures var k := j + ReadStep(s, j); Pairs(s, 0, k) || Slipped(s, j, k)
    ensures !Short(s, j) ==> Pairs(s, 0, j + ReadStep(s, j))
  {
    UStep(s, j);
    if FourHex(s, j) {
      FourDigits(s, j);
      if ReadStep(s, j) == 12 {
        PairFits(s, j + 6);
        FourDigits(s, j + 6);
      }
    } else {
      PairsNear(s, 0, j + 6);
    }
  }

  lemma {:induction false} PairedStep(s: string, j: nat)
    requires IsLiteral(s) && j < |s| && Reads(s, 0, j) && Pairs(s, 0, j) && ReadStep(s, j) > 0
    ensures var k := j + ReadStep(s, j); Pairs(s, 0, k) || Slipped(s, j, k)
    ensures !Short(s, j) ==> Pairs(s, 0, j + ReadStep(s, j))
  {
    PairFits(s, j);
    if EscapeU(s, j) { PastU(s, j); }
  }

  lemma {:induction false} SlippedStep(s: string, i: nat, j: nat)
    requires IsLiteral(s) && j < |s| && Reads(s, 0, j) && Slipped(s, i, j) && ReadStep(s, j) > 0
    ensures var k := j + ReadStep(s, j); Pairs(s, 0, k) || Slipped(s, i, k) || Slipped(s, j, k)
  {
    PairFits(s, j - 1);
    if s[j] == '\\' {
      PairFits(s, j + 1);
      if EscapeU(s, j) { PastU(s, j); }
    }
  }

  ghost predicate Parted(s: string, k: nat)
    requires k <= |s|
  {
    exists i :: Slipped(s, i, k)
  }

  lemma {:induction false} TogetherStep(s: string, j: nat)
    requires IsLiteral(s) && j < |s| && Reads(s, 0, j) && ReadStep(s, j) > 0
    requires Pairs(s, 0, j) || Parted(s, j)
    ensures Pairs(s, 0, j + ReadStep(s, j)) || Parted(s, j + ReadStep(s, j))
  {
    if Pairs(s, 0, j) {
      PairedStep(s, j);
    } else {
      var i :| Slipped(s, i, j);
      SlippedStep(s, i, j);
    }
  }

  /** Wherever the reader is, the search has been there too, or the two have parted. */
  lemma {:induction false} Together(s: string, j: nat, k: nat)
    requires IsLiteral(s) && j <= k <= |s| && Reads(s, 0, j) && Reads(s, j, k)
    requires Pairs(s, 0, j) || Parted(s, j)
    ensures Pairs(s, 0, k) || Parted(s, k)
    decreases k - j
  {
    if j < k {
      ReadsOn(s, 0, j);
      TogetherStep(s, j);
      Together(s, j + ReadStep(s, j), k);
    }
  }

  /** Both walks take the backslashes two by two. */
  lemma {:induction false} BackslashesRead(s: string, i: nat)
    requires i < |s| && Backslashes(s, i, |s|) && Pairs(s, i, |s|)
    ensures Reads(s, i + 1, |s| - 1)
    decreases |s| - i
  {
    if i + 2 < |s| {
      assert SimpleEscape('\\') == '\\' != NUL;
      BackslashesRead(s, i + 2);
    }
  }

  lemma {:induction false} ReadsJoin(s: string, i: nat, j: nat, k: nat)
    requires i <= j <= k <= |s| && Reads(s, i, j) && Reads(s, j, k)
    ensures Reads(s, i, k)
    decreases j - i
  {
    if i < j { ReadsJoin(s, i + ReadStep(s, i), j, k); }
  }

  lemma {:induction false} PairsSplit(s: string, i: nat, j: nat, k: nat)
    requires i <= j <= k <= |s| && Pairs(s, i, j) && Pairs(s, i, k)
    ensures Pairs(s, j, k)
    decreases j - i
  {
    if i < j { PairsSplit(s, i + PairStep(s, i), j, k); }
  }

  // ----- Main results -----

  /** From `i` the reader comes to a backslash in front of the closing quote. */
  predicate TakenFrom(s: string, i: nat) { i < |s| && s[|s| - 1] == '\\' && Reads(s, i, |s| - 1) }

  predicate TakesQuote(s: string) { TakenFrom(s, 0) }

  /** Decoding that keeps to the text between the quotes: it fails on a backslash at the end. */
  function DecodeWithin(s: string): Decoded
  {
    if s == [] then Text([])
    else if s[0] != '\\' then Then([s[0]], DecodeWithin(s[1..]))
    else if |s| < 2 then Undecodable
    else if s[1] == 'u' then
      var u := ReadUtf16(s);
      if u.BadLiteral? then Undecodable else Then(u.bytes, DecodeWithin(s[u.len..]))
    else if SimpleEscape(s[1]) == NUL then Undecodable
    else Then([SimpleEscape(s[1])], DecodeWithin(s[2..]))
  }

  predicate EndsInQuote(d: Decoded) { d.Text? && d.s != [] && d.s[|d.s| - 1] == '"' }

  lemma OneStep(s: string, i: nat) returns (bytes: string)
    requires i < |s|
    ensures var t, n := s[i..], ReadStep(s, i);
            if n > 0 then
              Decode(t) == Then(bytes, Decode(s[i + n..])) && DecodeWithin(t) == Then(bytes, DecodeWithin(s[i + n..]))
            else DecodeWithin(t).Undecodable? && Decode(t) == if i + 1 == |s| then Text(['"']) else Undecodable
  {
    var t, n := s[i..], ReadStep(s, i);
    assert t[n..] == s[i + n..];
    bytes := if t[0] != '\\' then [t[0]]
             else if n == 0 then []
             else if t[1] == 'u' then ReadUtf16(t).bytes
             else [SimpleEscape(t[1])];
  }

  /** What the two decodings make of a text whose end the reader does or does not take past the quote. */
  predicate Shows(d: Decoded, within: Decoded, taken: bool)
  {
    if taken then EndsInQuote(d) && within.Undecodable? else d == within
  }

  lemma ShowsThen(bytes: string, d: Decoded, within: Decoded, taken: bool)
    requires Shows(d, within, taken)
    ensures Shows(Then(bytes, d), Then(bytes, within), taken)
  {
  }

  /** The value of a literal that takes the closing quote ends in it; any other is decoded within its quotes. */
  lemma {:induction false} TakenQuoteShows(s: string, i: nat)
    requires i <= |s|
    ensures Shows(Decode(s[i..]), DecodeWithin(s[i..]), TakenFrom(s, i))
    decreases |s| - i
  {
    if i < |s| {
      var n := ReadStep(s, i);
      var bytes := OneStep(s, i);
      TakenNext(s, i);
      if n > 0 {
        TakenQuoteShows(s, i + n);
        ShowsThen(bytes, Decode(s[i + n..]), DecodeWithin(s[i + n..]), TakenFrom(s, i + n));
      }
    }
  }

  lemma TakenNext(s: string, i: nat)
    requires i < |s|
    ensures var n := ReadStep(s, i); TakenFrom(s, i) <==> if n > 0 then TakenFrom(s, i + n) else i + 1 == |s|
  {
    var n, end := ReadStep(s, i), |s| - 1;
    if i < end {
      assert Reads(s, i, end) <==> n > 0 && Reads(s, i + n, end);
      if i + n == |s| { assert !Reads(s, |s|, end); }
    } else {
      assert Reads(s, end, end);
    }
  }

  predicate EscapesAreFull(s: string)
  {
    forall i :: 0 <= i < |s| && Pairs(s, 0, i) && EscapeU(s, i) ==> i + 6 <= |s| && FourHex(s, i)
  }

  lemma {:induction false} StaysPaired(s: string, j: nat, k: nat)
    requires IsLiteral(s) && EscapesAreFull(s) && j <= k <= |s| && Reads(s, 0, j) && Reads(s, j, k) && Pairs(s, 0, j)
    ensures Pairs(s, 0, k)
    decreases k - j
  {
    if j < k {
      ReadsOn(s, 0, j);
      PairedStep(s, j);
      StaysPaired(s, j + ReadStep(s, j), k);
    }
  }

  /** A literal in which every `u` has its four hexadecimal digits keeps the closing quote out of its value. */
  lemma {:induction false} FullEscapesKeepQuoteOut(s: string)
    requires IsLiteral(s) && EscapesAreFull(s)
    ensures !TakesQuote(s) && Decode(s) == DecodeWithin(s)
  {
    if TakesQuote(s) {
      StaysPaired(s, 0, |s| - 1);
      PairFits(s, |s| - 1);
    }
    TakenQuoteShows(s, 0);
    assert s[0..] == s;
  }

  /** At `i` the reader takes a short escape, the search for the quote pairs the backslash at the end of it with the
      next character, and only backslashes follow. */
  predicate PartsAt(s: string, i: nat)
  {
    Short(s, i) && Reads(s, 0, i) && Pairs(s, 0, i + 5) && Backslashes(s, i + 5, |s|)
  }

  lemma EndIsPaired(s: string)
    requires IsLiteral(s)
    ensures Pairs(s, 0, |s|)
    ensures s != [] && s[|s| - 1] == '\\' ==> !Pairs(s, 0, |s| - 1)
  {
    PairsNear(s, 0, |s|);
    if s != [] && Pairs(s, 0, |s| - 1) { PairFits(s, |s| - 1); }
  }

  lemma ShortStep(s: string, i: nat)
    requires Short(s, i)
    ensures ReadStep(s, i) == 6
  {
    var t := s[i..];
    assert forall k :: 0 <= k < |t| ==> t[k] == s[i + k];
    assert Hex4(t[2..]) == 0;
  }

  lemma {:induction false} PartedTakesQuote(s: string, i: nat)
    requires IsLiteral(s) && PartsAt(s, i)
    ensures TakesQuote(s)
  {
    EndIsPaired(s);
    PairsSplit(s, 0, i + 5, |s|);
    BackslashesRead(s, i + 5);
    ShortStep(s, i);
    ReadsOn(s, 0, i);
    assert |s| - 1 > i + 5;
    ReadsJoin(s, 0, i + 6, |s| - 1);
  }

  lemma {:induction false} TakenQuoteParts(s: string) returns (i: nat)
    requires IsLiteral(s) && TakesQuote(s)
    ensures PartsAt(s, i)
  {
    EndIsPaired(s);
    Together(s, 0, |s| - 1);
    i :| Slipped(s, i, |s| - 1);
  }

  /** Exactly the literals in which the walks part like this take the closing quote. */
  lemma {:induction false} QuoteTakenIffWalksPart(s: string)
    requires IsLiteral(s)
    ensures TakesQuote(s) <==> exists i :: PartsAt(s, i)
    ensures Shows(Decode(s), DecodeWithin(s), TakesQuote(s))
  {
    TakenQuoteShows(s, 0);
    assert s[0..] == s;
    if TakesQuote(s) { var i := TakenQuoteParts(s); }
    if i :| PartsAt(s, i) { PartedTakesQuote(s, i); }
  }
}
