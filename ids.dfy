/**
 * Object ids: the web-safe base-64 generator that draws random ids, and `ObjectId`, a kind
 * and an id printed as `kind/id`.
 */
module Ids {
  import opened Wrappers

  // ---------------------------------------------------------------------------------------
  // RandomBase64Generator

  const Upper: string := "ABCDEFGHIJKLMNOPQRSTUVWXYZ"
  const Lower: string := "abcdefghijklmnopqrstuvwxyz"
  const Digits: string := "0123456789"

  /** `WEB64_ALPHABET`: the 64 web-safe characters, the URL-safe alphabet of section 5 of RFC 4648. */
  const Web64Alphabet: string := Upper + Lower + Digits + "-_"

  /** A character of the alphabet. */
  predicate IsWeb64(c: char)
  {
    'A' <= c <= 'Z' || 'a' <= c <= 'z' || '0' <= c <= '9' || c == '-' || c == '_'
  }

  /** A value `nextInt(64)` returns. */
  type Draw = d: int | 0 <= d < 64

  /** The character for a draw. */
  function Web64Char(d: Draw): (c: char)
    ensures c == Web64Alphabet[d]
  {
    Web64Alphabet[d]
  }

  /** The draw a character of the alphabet stands for. */
  function Web64Value(c: char): (d: Draw)
    requires IsWeb64(c)
  {
    if 'A' <= c <= 'Z' then c as int - 'A' as int
    else if 'a' <= c <= 'z' then c as int - 'a' as int + 26
    else if '0' <= c <= '9' then c as int - '0' as int + 52
    else if c == '-' then 62
    else 63
  }

  /** The alphabet is laid out range by range: every draw names a distinct character of it. */
  lemma AlphabetLayout(d: Draw)
    ensures IsWeb64(Web64Char(d)) && Web64Value(Web64Char(d)) == d
  {
    if d < 26 {
      assert Web64Alphabet[d] == Upper[d];
      UpperCounts(d);
    } else if d < 52 {
      assert Web64Alphabet[d] == Lower[d - 26];
      LowerCounts(d - 26);
    } else if d < 62 {
      assert Web64Alphabet[d] == Digits[d - 52];
      DigitsCount(d - 52);
    } else {
      assert Web64Alphabet[d] == "-_"[d - 62];
    }
  }

  lemma UpperCounts(i: int)
    requires 0 <= i < 26
    ensures Upper[i] as int == 'A' as int + i
  {
  }

  lemma LowerCounts(i: int)
    requires 0 <= i < 26
    ensures Lower[i] as int == 'a' as int + i
  {
  }

  lemma DigitsCount(i: int)
    requires 0 <= i < 10
    ensures Digits[i] as int == '0' as int + i
  {
  }

  /** The string spelled by a run of draws, one character each. */
  function Spelled(draws: seq<Draw>): (s: string)
    ensures |s| == |draws|
  {
    if |draws| == 0 then "" else Spelled(draws[..|draws| - 1]) + [Web64Char(draws[|draws| - 1])]
  }

  lemma {:induction false} SpelledAt(draws: seq<Draw>, i: int)
    requires 0 <= i < |draws|
    ensures Spelled(draws)[i] == Web64Char(draws[i])
    decreases |draws|
  {
    if i < |draws| - 1 {
      SpelledAt(draws[..|draws| - 1], i);
    }
  }

  /**
   * Every character of a spelled string is in the alphabet, and reading the characters back
   * gives the draws: a generated id determines the draws behind it.
   */
  lemma SpelledDetermines(draws: seq<Draw>)
    ensures forall i | 0 <= i < |draws| :: IsWeb64(Spelled(draws)[i]) && Web64Value(Spelled(draws)[i]) == draws[i]
  {
    forall i | 0 <= i < |draws|
      ensures IsWeb64(Spelled(draws)[i]) && Web64Value(Spelled(draws)[i]) == draws[i]
    {
      SpelledAt(draws, i);
      AlphabetLayout(draws[i]);
    }
  }

  /** The `length` draws of `random` from its `from`-th call on. */
  function Draws(random: nat -> Draw, from: nat, length: nat): (ds: seq<Draw>)
    ensures |ds| == length && forall i | 0 <= i < length :: ds[i] == random(from + i)
  {
    seq(length, i requires 0 <= i < length => random(from + i))
  }

  /**
   * `RandomBase64Generator` over a source of random numbers: `random(n)` is what the `n`-th
   * call of `nextInt(64)` returns, and `drawn` counts the calls made so far.
   */
  class RandomBase64Generator {
    const random: nat -> Draw
    var drawn: nat

    constructor (random: nat -> Draw)
      ensures this.random == random && drawn == 0
    {
      this.random := random;
      drawn := 0;
    }

    /**
     * `next(length)`: `length` characters, each the alphabet character of the next draw. A
     * negative length is the capacity the string builder refuses.
     */
    method Next(length: int) returns (r: Result<string>)
      modifies this
      ensures length < 0 ==> r == Err(Runtime) && drawn == old(drawn)
      ensures length >= 0 ==> r == Ok(Spelled(Draws(random, old(drawn), length))) && drawn == old(drawn) + length
    {
      if length < 0 {
        return Err(Runtime);
      }
      var result := "";
      var i := 0;
      while i < length
        invariant 0 <= i <= length && drawn == old(drawn) + i
        invariant result == Spelled(Draws(random, old(drawn), i))
      {
        assert Draws(random, old(drawn), i + 1)[..i] == Draws(random, old(drawn), i);
        result := result + [Web64Alphabet[random(drawn)]];
        drawn := drawn + 1;
        i := i + 1;
      }
      return Ok(result);
    }
  }

  // ---------------------------------------------------------------------------------------
  // ObjectId

  /** `ObjectId.SEPERATE`. */
  const Separator: char := '/'

  datatype ObjectId = ObjectId(kind: string, id: string)

  /** `String.indexOf(c)`: the first index of `c`, or -1. */
  function IndexOf(s: string, c: char): (r: int)
    ensures -1 <= r < |s|
    ensures r == -1 <==> c !in s
    ensures r >= 0 ==> s[r] == c && c !in s[..r]
  {
    if |s| == 0 then -1
    else if s[0] == c then 0
    else
      var r := IndexOf(s[1..], c);
      assert s[1..][..if r < 0 then 0 else r] == s[1..1 + if r < 0 then 0 else r];
      if r == -1 then -1 else r + 1
  }

  /**
   * The parsing constructor `ObjectId(key)`: a null key fails; the key splits at its first
   * `/`, which must not be its last character.
   */
  function Parse(key: Option<string>): (r: Result<ObjectId>)
    ensures key.None? ==> r == Err(NullPointer)
    ensures key.Some? ==> (r.Ok? <==> Separator in key.value && IndexOf(key.value, Separator) < |key.value| - 1)
    ensures r.Ok? ==> Separator !in r.value.kind && r.value.id != ""
  {
    if key.None? then Err(NullPointer)
    else
      var s := key.value;
      var i := IndexOf(s, Separator);
      if i == -1 || i >= |s| - 1 then Err(IllegalArgument)
      else Ok(ObjectId(s[..i], s[i + 1..]))
  }

  /** The constructor `ObjectId(kind, id)`: neither part may be null. */
  function Make(kind: Option<string>, id: Option<string>): (r: Result<ObjectId>)
    ensures r.Ok? <==> kind.Some? && id.Some?
    ensures r.Ok? ==> r.value.kind == kind.value && r.value.id == id.value
  {
    if kind.None? || id.None? then Err(NullPointer) else Ok(ObjectId(kind.value, id.value))
  }

  /** `toString`: `kind/id`. */
  function ToString(o: ObjectId): (s: string)
    ensures |s| == |o.kind| + 1 + |o.id| && s[|o.kind|] == Separator
  {
    o.kind + [Separator] + o.id
  }

  /** Every key the parser accepts is printed back exactly. */
  lemma PrintParsed(key: string)
    requires Parse(Some(key)).Ok?
    ensures ToString(Parse(Some(key)).value) == key
  {
    var i := IndexOf(key, Separator);
    assert key == key[..i] + [key[i]] + key[i + 1..];
  }

  /** The printed form of an id parses back to it exactly when its kind has no `/` and its id is not empty. */
  lemma ParsePrinted(o: ObjectId)
    ensures Parse(Some(ToString(o))) == Ok(o) <==> Separator !in o.kind && o.id != ""
  {
    var s := ToString(o);
    if Separator !in o.kind {
      assert s[..|o.kind|] == o.kind;
      FirstSeparator(o.kind, o.id);
      assert s[|o.kind| + 1..] == o.id;
    }
  }

  lemma FirstSeparator(kind: string, id: string)
    requires Separator !in kind
    ensures IndexOf(kind + [Separator] + id, Separator) == |kind|
  {
    var s := kind + [Separator] + id;
    assert s[|kind|] == Separator && s[..|kind|] == kind;
  }
}
