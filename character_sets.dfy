/**
 * Brightness-to-character quantisation (ascii_bg/core/character_sets.py).
 *
 * A character set is a non-empty ramp ordered from light to dark. A
 * brightness, clamped to [0, 1], selects the character at index
 * int(brightness * (length - 1)); brightness is a real number here.
 */
module CharacterSets {
  import opened Base
  import Text

  /** Ten characters ordered by visual density. */
  const SIMPLE_SET: string := " .:-=+*#%@"
  /** The long ramp, used as the default. */
  const EXTENDED_SET: string := " .'`^\",:;Il!i><~+_-?][}{1)(|\\/tfjrxnuvczXYUJCLQ0OZmwqpdbkhao*#MW&8%B@$"
  /** Space, light shade, medium shade, dark shade, full block. */
  const BLOCK_SET: string := " \U{2591}\U{2592}\U{2593}\U{2588}"
  const MINIMAL_SET: string := " .:#@"
  const DEFAULT_SET: string := EXTENDED_SET

  /** The preset table consulted by FromPreset, keyed by lower-case name. */
  const PRESETS: map<string, string> :=
    map["simple" := SIMPLE_SET, "extended" := EXTENDED_SET, "block" := BLOCK_SET, "minimal" := MINIMAL_SET]

  /** A larger brightness in [0, 1] never quantises to a smaller index. */
  lemma QuantiseMonotone(c1: real, c2: real, k: nat)
    requires 0.0 <= c1 <= c2
    ensures TruncToInt(c1 * k as real) <= TruncToInt(c2 * k as real)
  {
    assert (c2 - c1) * k as real >= 0.0;
    assert c1 * k as real >= 0.0;
    TruncMonotone(c1 * k as real, c2 * k as real);
  }

  /**
   * A character ramp with the two fields the source keeps: the string and its
   * length. Only FromString (and the presets) build one, so Valid() holds of
   * every set in use.
   */
  datatype CharacterSet = CharacterSet(charset: string, length: nat)
  {
    predicate Valid()
    {
      length == |charset| && length > 0
    }

    /** __len__: the number of characters in the ramp. */
    function Len(): (n: nat)
      requires Valid()
      ensures n == |charset| && n >= 1
    {
      length
    }

    /** __str__: the ramp itself. */
    function ToString(): (s: string)
      requires Valid()
      ensures s == charset
      ensures |s| == Len()
    {
      charset
    }

    /** The index get_char reads: int(clamp(brightness) * (length - 1)). */
    function Index(brightness: real): (i: int)
      requires Valid()
      ensures 0 <= i < length
    {
      var b := Clamp01(brightness);
      ScaleDown((length - 1) as real, b);
      TruncToInt(b * (length - 1) as real)
    }

    /** get_char: the character the brightness maps to; always one of the ramp's characters. */
    function GetChar(brightness: real): (c: char)
      requires Valid()
      ensures c in charset
      ensures c == charset[Index(brightness)]
    {
      charset[Index(brightness)]
    }

    /** invert: a new set holding the reversed ramp. */
    function Invert(): (r: CharacterSet)
      requires Valid()
      ensures r.Valid() && r.Len() == Len()
      ensures forall i :: 0 <= i < length ==> r.charset[i] == charset[length - 1 - i]
    {
      CharacterSet(seq(length, i requires 0 <= i < length => charset[length - 1 - i]), length)
    }

    /** Brightness 0 selects the first (lightest) and brightness 1 the last (darkest) character. */
    lemma GetCharEndpoints()
      requires Valid()
      ensures GetChar(0.0) == charset[0]
      ensures GetChar(1.0) == charset[length - 1]
    {
      assert 1.0 * (length - 1) as real == (length - 1) as real;
    }

    /** Out-of-range brightness behaves like the nearest end of [0, 1]. */
    lemma GetCharClamps(b: real)
      requires Valid()
      ensures b < 0.0 ==> GetChar(b) == GetChar(0.0)
      ensures b > 1.0 ==> GetChar(b) == GetChar(1.0)
    {
    }

    /** A brighter input never selects an earlier (lighter) character. */
    lemma {:induction false} IndexMonotone(b1: real, b2: real)
      requires Valid()
      requires b1 <= b2
      ensures Index(b1) <= Index(b2)
    {
      var k: nat := length - 1;
      var c1, c2 := Clamp01(b1), Clamp01(b2);
      ClampMonotone(b1, b2);
      QuantiseMonotone(c1, c2, k);
      assert Index(b1) == TruncToInt(c1 * k as real);
      assert Index(b2) == TruncToInt(c2 * k as real);
    }

    /** Inverting twice gives the original ramp back. */
    lemma InvertInvolution()
      requires Valid()
      ensures Invert().Invert() == this
    {
      var r := Invert().Invert();
      assert r.charset == charset;
    }

    /** The inverted ramp swaps the characters chosen for brightness 0 and 1. */
    lemma InvertSwapsEndpoints()
      requires Valid()
      ensures Invert().GetChar(1.0) == GetChar(0.0)
      ensures Invert().GetChar(0.0) == GetChar(1.0)
    {
      GetCharEndpoints();
      Invert().GetCharEndpoints();
    }

    /** Outside [0, 1] both sides clamp to the same end, so the mirror equation holds there. */
    lemma InvertMirrorsOutsideUnit(v: real)
      requires Valid()
      requires v < 0.0 || v > 1.0
      ensures GetChar(v) == Invert().GetChar(1.0 - v)
    {
      GetCharClamps(v);
      Invert().GetCharClamps(1.0 - v);
      InvertSwapsEndpoints();
    }

    /**
     * At the band boundaries v = k / (length - 1) the inverted ramp read at
     * 1 - v gives the same character as the original read at v.
     */
    lemma InvertMirrorsAtBoundaries(k: nat)
      requires Valid() && length >= 2 && k < length
      ensures GetChar(k as real / (length - 1) as real)
           == Invert().GetChar(1.0 - k as real / (length - 1) as real)
    {
      var n := (length - 1) as real;
      var v := k as real / n;
      assert v * n == k as real;
      assert 0.0 <= v <= 1.0;
      assert (1.0 - v) * n == (length - 1 - k) as real;
      assert Index(v) == k;
      assert Invert().Index(1.0 - v) == length - 1 - k;
    }
  }

  /** CharacterSet(s): the empty string is rejected. */
  function FromString(s: string): (r: Result<CharacterSet>)
    ensures r.Ok? <==> s != []
    ensures r.Ok? ==> r.value.Valid() && r.value.charset == s
    ensures r.Err? ==> r.error == EmptyCharset
  {
    if s == [] then Err(EmptyCharset) else Ok(CharacterSet(s, |s|))
  }

  /** CharacterSet(): the default (extended) ramp. */
  function Default(): (r: CharacterSet)
    ensures r.Valid() && r.charset == EXTENDED_SET
  {
    CharacterSet(DEFAULT_SET, |DEFAULT_SET|)
  }

  /** from_preset: one of the four named ramps, name matched ignoring case. */
  function FromPreset(name: string): (r: Result<CharacterSet>)
    ensures r.Ok? <==> Text.Lower(name) in {"simple", "extended", "block", "minimal"}
    ensures r.Ok? ==> r.value.Valid()
    ensures Text.Lower(name) == "simple" ==> r == Ok(CharacterSet(SIMPLE_SET, 10))
    ensures Text.Lower(name) == "extended" ==> r == Ok(CharacterSet(EXTENDED_SET, 70))
    ensures Text.Lower(name) == "block" ==> r == Ok(CharacterSet(BLOCK_SET, 5))
    ensures Text.Lower(name) == "minimal" ==> r == Ok(CharacterSet(MINIMAL_SET, 5))
    ensures r.Err? ==> r.error == InvalidPreset(name)
  {
    var key := Text.Lower(name);
    if key !in PRESETS then Err(InvalidPreset(name))
    else
      FromString(PRESETS[key])
  }

  /**
   * The mirror equation get_char(v) == invert().get_char(1 - v) can fail
   * between band boundaries: for the ramp "abc" and v = 0.25 the original
   * reads index int(0.5) = 0 and the inverted ramp reads index int(1.5) = 1.
   */
  lemma InvertMirrorFailsBetweenBoundaries()
    ensures CharacterSet("abc", 3).GetChar(0.25) == 'a'
    ensures CharacterSet("abc", 3).Invert().GetChar(0.75) == 'b'
  {
    var cs := CharacterSet("abc", 3);
    assert cs.Index(0.25) == 0;
    assert cs.Invert().charset == "cba";
    assert cs.Invert().Index(0.75) == 1;
  }
}
