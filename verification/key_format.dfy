/** Activation-key format: the prefix "SKY-" followed by 24 characters drawn
    from the upper-case letters and the digits (servtoolki.py, generate_key).
    The random choices are modelled as a "draw": the sequence of alphabet
    indices that random.choice picked. */
module KeyFormat {

  const Prefix: string := "SKY-"
  const SuffixLength: nat := 24
  /** |string.ascii_uppercase + string.digits| */
  const AlphabetSize: nat := 36

  /** A character of string.ascii_uppercase + string.digits. */
  predicate IsKeyChar(c: char) {
    ('A' <= c <= 'Z') || ('0' <= c <= '9')
  }

  /** The shape every generated key has. */
  predicate WellFormedKey(k: string) {
    && |k| == |Prefix| + SuffixLength
    && k[..|Prefix|] == Prefix
    && forall i :: |Prefix| <= i < |k| ==> IsKeyChar(k[i])
  }

  /** One run of the 24 random.choice calls: an index into the alphabet per character. */
  predicate ValidDraw(d: seq<nat>) {
    |d| == SuffixLength && forall i :: 0 <= i < |d| ==> d[i] < AlphabetSize
  }

  /** The i-th character of ascii_uppercase + digits ("A".."Z" then "0".."9"). */
  function Pick(i: nat): (c: char)
    requires i < AlphabetSize
    ensures IsKeyChar(c)
  {
    if i < 26 then ('A' as int + i) as char else ('0' as int + (i - 26)) as char
  }

  /** Position of an alphabet character: the inverse of Pick. */
  function Rank(c: char): (i: nat)
    requires IsKeyChar(c)
    ensures i < AlphabetSize && Pick(i) == c
  {
    if 'A' <= c <= 'Z' then c as int - 'A' as int else 26 + (c as int - '0' as int)
  }

  /** The characters that a run of random choices joins together. */
  function Suffix(d: seq<nat>): (s: string)
    requires forall i :: 0 <= i < |d| ==> d[i] < AlphabetSize
    ensures |s| == |d|
    ensures forall i :: 0 <= i < |s| ==> IsKeyChar(s[i])
  {
    if d == [] then [] else [Pick(d[0])] + Suffix(d[1..])
  }

  /** generate_key: "SKY-" followed by the 24 picked characters. */
  function GenerateKey(d: seq<nat>): (k: string)
    requires ValidDraw(d)
    ensures WellFormedKey(k)
  {
    Prefix + Suffix(d)
  }

  /** Reads back the alphabet indices of a run of key characters. */
  function Ranks(s: string): (d: seq<nat>)
    requires forall i :: 0 <= i < |s| ==> IsKeyChar(s[i])
    ensures |d| == |s|
    ensures forall i :: 0 <= i < |d| ==> d[i] < AlphabetSize
  {
    if s == [] then [] else [Rank(s[0])] + Ranks(s[1..])
  }

  /** The draw that produces a well-formed key. */
  function DrawOf(k: string): (d: seq<nat>)
    requires WellFormedKey(k)
    ensures ValidDraw(d)
  {
    Ranks(k[|Prefix|..])
  }

  lemma {:induction false} RanksOfSuffix(d: seq<nat>)
    requires forall i :: 0 <= i < |d| ==> d[i] < AlphabetSize
    ensures Ranks(Suffix(d)) == d
  {
    if d != [] {
      RanksOfSuffix(d[1..]);
      assert Suffix(d)[1..] == Suffix(d[1..]);
    }
  }

  lemma {:induction false} SuffixOfRanks(s: string)
    requires forall i :: 0 <= i < |s| ==> IsKeyChar(s[i])
    ensures Suffix(Ranks(s)) == s
  {
    if s != [] {
      SuffixOfRanks(s[1..]);
      assert Ranks(s)[1..] == Ranks(s[1..]);
    }
  }

  /** A key remembers the random choices that made it. */
  lemma DrawOfGenerateKey(d: seq<nat>)
    requires ValidDraw(d)
    ensures DrawOf(GenerateKey(d)) == d
  {
    assert GenerateKey(d)[|Prefix|..] == Suffix(d);
    RanksOfSuffix(d);
  }

  /** Every well-formed key is a possible output of generate_key. */
  lemma GenerateKeyOfDrawOf(k: string)
    requires WellFormedKey(k)
    ensures GenerateKey(DrawOf(k)) == k
  {
    SuffixOfRanks(k[|Prefix|..]);
    assert k == k[..|Prefix|] + k[|Prefix|..];
  }

  /** Different random choices give different keys. */
  lemma GenerateKeyInjective(d1: seq<nat>, d2: seq<nat>)
    requires ValidDraw(d1) && ValidDraw(d2)
    requires GenerateKey(d1) == GenerateKey(d2)
    ensures d1 == d2
  {
    DrawOfGenerateKey(d1);
    DrawOfGenerateKey(d2);
  }
}
