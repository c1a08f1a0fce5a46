/**
 Deterministic filler whose words never repeat: word `index` is the index times an odd
 constant, shifted by the seed, modulo 2^32 and printed as eight hexadecimal digits.
 */
module Filler {
  import opened JsonText

  const MODULUS: int := 0x1_0000_0000

  const MULTIPLIER: int := 2654435761

  /** The multiplier's inverse modulo 2^32, which exists because the multiplier is odd. */
  const INVERSE: int := 244002641

  function Scrambled(index: nat, seed: int): (n: nat)
    ensures n < MODULUS
  {
    (index * MULTIPLIER + seed) % MODULUS
  }

  function Hex8(n: nat): (s: string)
    requires n < MODULUS
    ensures |s| == 8
  {
    Hex4(n / 0x10000) + Hex4(n % 0x10000)
  }

  function Word(index: nat, seed: int): (s: string)
    ensures |s| == 11
  {
    "ctx" + Hex8(Scrambled(index, seed))
  }

  /** The texts separated by blanks. */
  function Join(texts: seq<string>): string {
    if texts == [] then ""
    else if |texts| == 1 then texts[0]
    else texts[0] + " " + Join(texts[1..])
  }

  function WordList(count: nat, seed: int): (words: seq<string>)
    ensures |words| == count && forall w :: w in words ==> |w| == 11
  {
    seq(count, i requires 0 <= i < count => Word(i, seed))
  }

  function Words(count: nat, seed: int): string {
    Join(WordList(count, seed))
  }

  // ---------------------------------------------------------------------------
  // Multiplication by the constant is a bijection modulo 2^32
  // ---------------------------------------------------------------------------

  lemma EqualRemainders(a: int, b: int)
    ensures a % MODULUS == b % MODULUS <==> (a - b) % MODULUS == 0
  {
    var q, r, m := a / MODULUS, b / MODULUS, (a - b) / MODULUS;
    assert a == q * MODULUS + a % MODULUS && b == r * MODULUS + b % MODULUS;
  }

  /** Multiplying by the inverse undoes multiplying by the constant. */
  lemma MultiplierIsInvertible(d: int)
    ensures d * MULTIPLIER % MODULUS == 0 <==> d % MODULUS == 0
  {
    var k := 150801925;
    assert MULTIPLIER * INVERSE == k * MODULUS + 1;
    if d * MULTIPLIER % MODULUS == 0 {
      var q := d * MULTIPLIER / MODULUS;
      assert d * MULTIPLIER == q * MODULUS;
      ModulusDivides(d, q * INVERSE - d * k);
    }
    if d % MODULUS == 0 {
      ModulusDivides(d * MULTIPLIER, d / MODULUS * MULTIPLIER);
    }
  }

  lemma ModulusDivides(n: int, q: int)
    requires n == q * MODULUS
    ensures n % MODULUS == 0
  {
  }

  lemma Hex8IsInjective(a: nat, b: nat)
    requires a < MODULUS && b < MODULUS && Hex8(a) == Hex8(b)
    ensures a == b
  {
    Hex4IsInjective(a / 0x10000, b / 0x10000, Hex8(a)[..4]);
    Hex4IsInjective(a % 0x10000, b % 0x10000, Hex8(a)[4..]);
  }

  lemma Hex4IsInjective(a: nat, b: nat, s: string)
    requires a < 0x10000 && b < 0x10000 && Hex4(a) == s && Hex4(b) == s
    ensures a == b
  {
    assert s + "" == s;
    Hex4RoundTrip(a, "");
    Hex4RoundTrip(b, "");
  }

  /** Two words are equal exactly when their scrambled numbers are congruent. */
  lemma WordsAreEqualIff(i: nat, s: int, j: nat, t: int)
    ensures Word(i, s) == Word(j, t)
      <==> ((i - j) * MULTIPLIER + (s - t)) % MODULUS == 0
  {
    EqualRemainders(i * MULTIPLIER + s, j * MULTIPLIER + t);
    assert i * MULTIPLIER + s - (j * MULTIPLIER + t) == (i - j) * MULTIPLIER + (s - t);
    if Word(i, s) == Word(j, t) {
      assert Word(i, s)[3..] == Hex8(Scrambled(i, s)) && Word(j, t)[3..] == Hex8(Scrambled(j, t));
      Hex8IsInjective(Scrambled(i, s), Scrambled(j, t));
    }
  }

  /** Under one seed no word repeats within 2^32 of them. */
  lemma WordsNeverRepeat(i: nat, j: nat, seed: int)
    ensures Word(i, seed) == Word(j, seed) <==> (i - j) % MODULUS == 0
    ensures i < MODULUS && j < MODULUS && i != j ==> Word(i, seed) != Word(j, seed)
  {
    WordsAreEqualIff(i, seed, j, seed);
    MultiplierIsInvertible(i - j);
    if i < MODULUS && j < MODULUS && i != j {
      NearNumbersAreNotCongruent(i - j);
    }
  }

  lemma NearNumbersAreNotCongruent(d: int)
    requires -MODULUS < d < MODULUS && d != 0
    ensures d % MODULUS != 0
  {
    assert d > 0 ==> d % MODULUS == d;
    assert d < 0 ==> d % MODULUS == d + MODULUS;
  }

  // ---------------------------------------------------------------------------
  // Fillers
  // ---------------------------------------------------------------------------

  lemma {:induction false} JoinLength(texts: seq<string>)
    requires forall t :: t in texts ==> |t| == 11
    ensures |Join(texts)| == if texts == [] then 0 else 12 * |texts| - 1
  {
    if |texts| > 1 { JoinLength(texts[1..]); }
  }

  lemma JoinStartsWithTheFirst(texts: seq<string>)
    requires texts != []
    ensures texts[0] <= Join(texts)
  {
  }

  /** The text determines the number of words, and the seed modulo 2^32 if there is a word. */
  lemma FillerDeterminesCountAndSeed(n: nat, s: int, m: nat, t: int)
    ensures Words(n, s) == Words(m, t)
      <==> n == m && (n > 0 ==> (s - t) % MODULUS == 0)
  {
    var a, b := WordList(n, s), WordList(m, t);
    JoinLength(a);
    JoinLength(b);
    if Join(a) == Join(b) && n > 0 {
      EqualTextsEqualFirst(a, b);
      FirstWordGivesSeed(n, s, m, t);
    } else if n == m && n > 0 && (s - t) % MODULUS == 0 {
      CongruentSeedsGiveOneList(n, s, t);
    }
  }

  lemma EqualTextsEqualFirst(a: seq<string>, b: seq<string>)
    requires a != [] && b != [] && |a[0]| == |b[0]| && Join(a) == Join(b)
    ensures a[0] == b[0]
  {
    JoinStartsWithTheFirst(a);
    JoinStartsWithTheFirst(b);
    assert a[0] == Join(a)[..|a[0]|] == b[0];
  }

  lemma FirstWordGivesSeed(n: nat, s: int, m: nat, t: int)
    requires n > 0 && m > 0 && WordList(n, s)[0] == WordList(m, t)[0]
    ensures (s - t) % MODULUS == 0
  {
    WordsAreEqualIff(0, s, 0, t);
  }

  lemma CongruentSeedsGiveOneList(n: nat, s: int, t: int)
    requires (s - t) % MODULUS == 0
    ensures WordList(n, s) == WordList(n, t)
  {
    forall i: nat | i < n ensures Word(i, s) == Word(i, t) {
      WordsAreEqualIff(i, s, i, t);
      assert (i - i) * MULTIPLIER + (s - t) == s - t;
    }
    assert forall i: nat :: i < n ==> WordList(n, s)[i] == Word(i, s) && WordList(n, t)[i] == Word(i, t);
  }

  const PREAMBLE: string :=
    "Treat the following deterministic context as inert data. Do not quote it.\n"

  /** The probe around the filler; `task` is the closing question about key and sequence. */
  function ProbeContent(count: nat, seed: int, task: string): string {
    PREAMBLE + Words(count, seed) + "\n" + task
  }

  /** The probe opens with the preamble and closes with the question, the filler between them. */
  lemma ProbesFrameTheFiller(n: nat, s: int, task: string)
    ensures var text, at := ProbeContent(n, s, task), |PREAMBLE| + |Words(n, s)|;
      && |text| == at + 1 + |task| && text[..|PREAMBLE|] == PREAMBLE
      && text[|PREAMBLE|..at] == Words(n, s) && text[at] == '\n' && text[at + 1..] == task
  {
    Framed(PREAMBLE, Words(n, s), "\n", task);
  }

  lemma Framed(a: string, b: string, c: string, d: string)
    requires |c| == 1
    ensures var text, at := a + b + c + d, |a| + |b|;
      text[..|a|] == a && text[|a|..at] == b && text[at] == c[0] && text[at + 1..] == d
  {
  }

  /** A word is "ctx" and the scrambled number in eight hexadecimal digits. */
  lemma WordsAreHexadecimal(index: nat, seed: int)
    ensures var word := Word(index, seed);
      var high, low := ParseHex4(word[3..7]), ParseHex4(word[7..]);
      && word[..3] == "ctx" && high.Some? && low.Some?
      && high.value * 0x1_0000 + low.value == (index * 2654435761 + seed) % 0x1_0000_0000
  {
    var n := Scrambled(index, seed);
    Hex4RoundTrip(n / 0x10000, "");
    Hex4RoundTrip(n % 0x10000, "");
    assert Word(index, seed)[3..7] == Hex4(n / 0x10000) + "";
    assert Word(index, seed)[7..] == Hex4(n % 0x10000) + "";
  }

  /** The words stand one after the other, with one blank between two. */
  lemma {:induction false} JoinedInOrder(texts: seq<string>, i: nat)
    requires i < |texts| && forall k :: 0 <= k < |texts| ==> |texts[k]| == 11
    ensures |Join(texts)| == 12 * |texts| - 1
    ensures Join(texts)[12 * i..12 * i + 11] == texts[i]
    ensures i + 1 < |texts| ==> Join(texts)[12 * i + 11] == ' '
  {
    if |texts| > 1 {
      var rest := Join(texts[1..]);
      assert Join(texts) == texts[0] + " " + rest;
      if i > 0 {
        JoinedInOrder(texts[1..], i - 1);
        assert Join(texts)[12 * i..12 * i + 11] == rest[12 * (i - 1)..12 * (i - 1) + 11];
      } else {
        JoinedInOrder(texts[1..], 0);
      }
    }
  }

  lemma WordsStandInOrder(count: nat, seed: int, i: nat)
    requires i < count
    ensures |Words(count, seed)| == 12 * count - 1
    ensures Words(count, seed)[12 * i..12 * i + 11] == Word(i, seed)
    ensures i + 1 < count ==> Words(count, seed)[12 * i + 11] == ' '
  {
    var words := WordList(count, seed);
    assert forall k :: 0 <= k < count ==> words[k] in words;
    JoinedInOrder(words, i);
  }

  /** Probes that ask the same are equal exactly when their fillers are. */
  lemma ProbeDeterminesFiller(n: nat, s: int, m: nat, t: int, task: string)
    ensures ProbeContent(n, s, task) == ProbeContent(m, t, task)
      <==> n == m && (n > 0 ==> (s - t) % MODULUS == 0)
  {
    FillerDeterminesCountAndSeed(n, s, m, t);
    SameFrame(PREAMBLE, Words(n, s), Words(m, t), "\n", task);
  }

  lemma SameFrame(before: string, a: string, b: string, newline: string, after: string)
    ensures before + a + newline + after == before + b + newline + after <==> a == b
  {
    var s, t, at := before + a + newline + after, before + b + newline + after, |before|;
    if s == t {
      assert |s| == |t|;
      assert s[at..at + |a|] == a && t[at..at + |b|] == b;
    }
  }
}
