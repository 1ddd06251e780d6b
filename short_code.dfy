/**
 * The short-code generator of the URL shortener.
 *
 * The generator picks nine characters from a 36-symbol alphabet and prints
 * them as three triplets separated by hyphens (`ab3-7xy-z09`). The random
 * choice of each character is an input here: a "draw" is the sequence of
 * the nine alphabet positions that the random source produced.
 */
module ShortCode {

  /** The alphabet the generator picks from: lower-case letters, then digits. */
  const Alphabet: string := "abcdefghijklmnopqrstuvwxyz0123456789"

  /** Number of characters the generator picks. */
  const RawLength: nat := 9

  /** Length of a formatted code: nine characters plus two hyphens. */
  const CodeLength: nat := 11

  const Hyphen: char := '-'

  /** Nine positions, each a valid index into the alphabet. */
  predicate IsDraw(draw: seq<int>) {
    |draw| == RawLength && forall i :: 0 <= i < |draw| ==> 0 <= draw[i] < |Alphabet|
  }

  /** The characters picked by a draw, in order. */
  function Picked(draw: seq<int>): (raw: string)
    requires IsDraw(draw)
    ensures |raw| == RawLength
    ensures forall i :: 0 <= i < RawLength ==> raw[i] == Alphabet[draw[i]]
  {
    seq(|draw|, i requires 0 <= i < |draw| => Alphabet[draw[i]])
  }

  /** The three-triplet layout of nine picked characters. */
  function Format(raw: string): (code: string)
    requires |raw| == RawLength
    ensures |code| == CodeLength && code[3] == Hyphen && code[7] == Hyphen
    ensures code[..3] == raw[..3] && code[4..7] == raw[3..6] && code[8..] == raw[6..]
  {
    raw[..3] + [Hyphen] + raw[3..6] + [Hyphen] + raw[6..]
  }

  /** The shape of every code the generator can print. */
  predicate IsShortCode(code: string) {
    |code| == CodeLength &&
    code[3] == Hyphen && code[7] == Hyphen &&
    forall i :: 0 <= i < |code| && i != 3 && i != 7 ==> code[i] in Alphabet
  }

  /** The string with every hyphen removed. */
  function RemoveHyphens(s: string): string {
    if s == [] then []
    else (if s[0] == Hyphen then [] else [s[0]]) + RemoveHyphens(s[1..])
  }

  /** Position of a character in the alphabet, or -1 when it is not in it. */
  ghost function AlphabetIndex(c: char): int {
    if 'a' <= c <= 'z' then c as int - 'a' as int
    else if '0' <= c <= '9' then 26 + (c as int - '0' as int)
    else -1
  }

  /**
   * The generator. The loop appends one alphabet character per draw,
   * nine times; the result is then cut into triplets.
   */
  method GenerateCustomShortCode(draw: seq<int>) returns (code: string)
    requires IsDraw(draw)
    ensures IsShortCode(code)
    ensures |RemoveHyphens(code)| == RawLength
    ensures forall i :: 0 <= i < RawLength ==> RemoveHyphens(code)[i] == Alphabet[draw[i]]
    ensures code == Format(Picked(draw))
  {
    var result := "";
    for i := 0 to RawLength
      invariant |result| == i
      invariant forall k :: 0 <= k < i ==> result[k] == Alphabet[draw[k]]
    {
      result := result + [Alphabet[draw[i]]];
    }
    assert result == Picked(draw);
    code := result[..3] + [Hyphen] + result[3..6] + [Hyphen] + result[6..9];
    PickedHasNoHyphen(draw);
    FormatIsShortCode(result);
    assert code == Format(result);
    RemoveHyphensFormat(result);
  }

  lemma AlphabetHasNoHyphen()
    ensures Hyphen !in Alphabet
    ensures forall i :: 0 <= i < |Alphabet| ==> AlphabetIndex(Alphabet[i]) == i
  {
  }

  lemma PickedHasNoHyphen(draw: seq<int>)
    requires IsDraw(draw)
    ensures |Picked(draw)| == RawLength
    ensures forall c :: c in Picked(draw) ==> c in Alphabet && c != Hyphen
  {
    AlphabetHasNoHyphen();
  }

  /** A formatted code of alphabet characters has the generator's shape. */
  lemma FormatIsShortCode(raw: string)
    requires |raw| == RawLength
    requires forall c :: c in raw ==> c in Alphabet
    ensures IsShortCode(Format(raw))
  {
  }

  lemma {:induction false} RemoveHyphensAppend(a: string, b: string)
    ensures RemoveHyphens(a + b) == RemoveHyphens(a) + RemoveHyphens(b)
  {
    if a == [] {
      assert a + b == b;
    } else {
      assert (a + b)[1..] == a[1..] + b;
      RemoveHyphensAppend(a[1..], b);
    }
  }

  lemma {:induction false} RemoveHyphensIdentity(s: string)
    requires Hyphen !in s
    ensures RemoveHyphens(s) == s
  {
    if s != [] {
      RemoveHyphensIdentity(s[1..]);
    }
  }

  /** Removing the two hyphens gives back the nine picked characters. */
  lemma RemoveHyphensFormat(raw: string)
    requires |raw| == RawLength
    requires Hyphen !in raw
    ensures RemoveHyphens(Format(raw)) == raw
  {
    var a, b, c := raw[..3], raw[3..6], raw[6..];
    assert raw == a + b + c;
    assert Hyphen !in a && Hyphen !in b && Hyphen !in c;
    RemoveHyphensIdentity(a);
    RemoveHyphensIdentity(b);
    RemoveHyphensIdentity(c);
    assert RemoveHyphens([Hyphen]) == [];
    RemoveHyphensAppend(a + [Hyphen] + b + [Hyphen], c);
    RemoveHyphensAppend(a + [Hyphen] + b, [Hyphen]);
    RemoveHyphensAppend(a + [Hyphen], b);
    RemoveHyphensAppend(a, [Hyphen]);
  }

  /** Conversely, re-formatting the hyphen-free characters of a code restores it. */
  lemma FormatRemoveHyphens(code: string)
    requires IsShortCode(code)
    ensures |RemoveHyphens(code)| == RawLength
    ensures forall c :: c in RemoveHyphens(code) ==> c in Alphabet
    ensures Format(RemoveHyphens(code)) == code
  {
    AlphabetHasNoHyphen();
    var raw := code[..3] + code[4..7] + code[8..];
    assert |raw| == RawLength;
    forall i | 0 <= i < RawLength
      ensures raw[i] in Alphabet
    {
      if i < 3 { assert raw[i] == code[i]; }
      else if i < 6 { assert raw[i] == code[i + 1]; }
      else { assert raw[i] == code[i + 2]; }
    }
    assert Hyphen !in raw;
    assert Format(raw) == code;
    RemoveHyphensFormat(raw);
  }

  /** Every string of the generator's shape is printed by some draw. */
  lemma EveryShortCodeIsGenerated(code: string)
    requires IsShortCode(code)
    ensures exists draw :: IsDraw(draw) && Format(Picked(draw)) == code
  {
    AlphabetHasNoHyphen();
    FormatRemoveHyphens(code);
    var raw := RemoveHyphens(code);
    var draw := seq(RawLength, i requires 0 <= i < RawLength => AlphabetIndex(raw[i]));
    forall i | 0 <= i < RawLength
      ensures 0 <= draw[i] < |Alphabet| && Alphabet[draw[i]] == raw[i]
    {
      assert raw[i] in Alphabet;
      var j :| 0 <= j < |Alphabet| && Alphabet[j] == raw[i];
      assert draw[i] == j;
    }
    assert Picked(draw) == raw;
  }

  /** Different draws print different codes. */
  lemma GenerationIsInjective(d1: seq<int>, d2: seq<int>)
    requires IsDraw(d1) && IsDraw(d2)
    requires Format(Picked(d1)) == Format(Picked(d2))
    ensures d1 == d2
  {
    PickedHasNoHyphen(d1);
    PickedHasNoHyphen(d2);
    RemoveHyphensFormat(Picked(d1));
    RemoveHyphensFormat(Picked(d2));
    AlphabetHasNoHyphen();
    forall i | 0 <= i < RawLength
      ensures d1[i] == d2[i]
    {
      assert Picked(d1)[i] == Picked(d2)[i];
      assert AlphabetIndex(Alphabet[d1[i]]) == d1[i];
    }
  }
}
