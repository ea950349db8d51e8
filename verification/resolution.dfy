/**
 * The output-size choice of the Seedream client (`getBestResolution`): a source image's
 * width/height ratio picks one of five fixed sizes through ordered threshold bands.
 */
module Resolution {
  import Decimal

  /** The five sizes the selector can return. */
  datatype Size = Wide16x9 | Wide4x3 | Tall9x16 | Tall3x4 | Square {

    function Width(): nat
    {
      match this
      case Wide16x9 => 2560
      case Wide4x3 => 2304
      case Tall9x16 => 1440
      case Tall3x4 => 1728
      case Square => 2048
    }

    function Height(): nat
    {
      match this
      case Wide16x9 => 1440
      case Wide4x3 => 1728
      case Tall9x16 => 2560
      case Tall3x4 => 2304
      case Square => 2048
    }

    /** The size string sent as the request's `size` field. */
    function Text(): string
    {
      match this
      case Wide16x9 => "2560x1440"
      case Wide4x3 => "2304x1728"
      case Tall9x16 => "1440x2560"
      case Tall3x4 => "1728x2304"
      case Square => "2048x2048"
    }

    predicate IsLandscape() { Wide16x9? || Wide4x3? }

    predicate IsPortrait() { Tall9x16? || Tall3x4? }
  }

  /** The only strings `getBestResolution` can produce. */
  const SizeTexts: set<string> := {"2560x1440", "2304x1728", "1440x2560", "1728x2304", "2048x2048"}

  /** The minimum total pixel count the generation service asks for. */
  const MinPixels: nat := 3686400

  /**
   * `width / height > num / den` as JavaScript evaluates it for whole pixel counts:
   * a zero height gives Infinity (above every threshold) for a positive width and NaN
   * (above none) for a zero width.
   */
  predicate RatioAbove(width: nat, height: nat, num: nat, den: nat)
  {
    if height == 0 then width > 0 else width * den > num * height
  }

  /** `width / height < num / den`; Infinity and NaN are below no threshold. */
  predicate RatioBelow(width: nat, height: nat, num: nat, den: nat)
  {
    height > 0 && width * den < num * height
  }

  /** The bands 1.5, 1.2, 0.6, 0.8 tried in source order, falling back to the square size. */
  function Select(width: nat, height: nat): Size
  {
    if RatioAbove(width, height, 3, 2) then Wide16x9
    else if RatioAbove(width, height, 6, 5) then Wide4x3
    else if RatioBelow(width, height, 3, 5) then Tall9x16
    else if RatioBelow(width, height, 4, 5) then Tall3x4
    else Square
  }

  /** `getBestResolution(width, height)`. */
  function BestResolution(width: nat, height: nat): (s: string)
    ensures s in SizeTexts
  {
    Select(width, height).Text()
  }

  /** Each size string spells the size's own width and height. */
  lemma {:induction false} TextSpellsDimensions(z: Size)
    ensures z.Text() == Decimal.NatToString(z.Width()) + "x" + Decimal.NatToString(z.Height())
  {
    match z {
      case Wide16x9 => SpellsWide16x9();
      case Wide4x3 => SpellsWide4x3();
      case Tall9x16 => SpellsTall9x16();
      case Tall3x4 => SpellsTall3x4();
      case Square => SpellsSquare();
    }
  }

  lemma SpellsWide16x9()
    ensures Wide16x9.Text() == Decimal.NatToString(2560) + "x" + Decimal.NatToString(1440)
  {
    Spell2560();
    Spell1440();
  }

  lemma SpellsWide4x3()
    ensures Wide4x3.Text() == Decimal.NatToString(2304) + "x" + Decimal.NatToString(1728)
  {
    Spell2304();
    Spell1728();
  }

  lemma SpellsTall9x16()
    ensures Tall9x16.Text() == Decimal.NatToString(1440) + "x" + Decimal.NatToString(2560)
  {
    Spell1440();
    Spell2560();
  }

  lemma SpellsTall3x4()
    ensures Tall3x4.Text() == Decimal.NatToString(1728) + "x" + Decimal.NatToString(2304)
  {
    Spell1728();
    Spell2304();
  }

  lemma SpellsSquare()
    ensures Square.Text() == Decimal.NatToString(2048) + "x" + Decimal.NatToString(2048)
  {
    Spell2048();
  }

  lemma Spell2560() ensures Decimal.NatToString(2560) == "2560"
  {
    assert Decimal.NatToString(2) == "2";
    assert Decimal.NatToString(25) == "25";
    assert Decimal.NatToString(256) == "256";
  }

  lemma Spell1440() ensures Decimal.NatToString(1440) == "1440"
  {
    assert Decimal.NatToString(1) == "1";
    assert Decimal.NatToString(14) == "14";
    assert Decimal.NatToString(144) == "144";
  }

  lemma Spell2304() ensures Decimal.NatToString(2304) == "2304"
  {
    assert Decimal.NatToString(2) == "2";
    assert Decimal.NatToString(23) == "23";
    assert Decimal.NatToString(230) == "230";
  }

  lemma Spell1728() ensures Decimal.NatToString(1728) == "1728"
  {
    assert Decimal.NatToString(1) == "1";
    assert Decimal.NatToString(17) == "17";
    assert Decimal.NatToString(172) == "172";
  }

  lemma Spell2048() ensures Decimal.NatToString(2048) == "2048"
  {
    assert Decimal.NatToString(2) == "2";
    assert Decimal.NatToString(20) == "20";
    assert Decimal.NatToString(204) == "204";
  }

  /** Every size the selector can return has at least 3,686,400 pixels. */
  lemma {:induction false} EnoughPixels(width: nat, height: nat)
    ensures Select(width, height).Width() * Select(width, height).Height() >= MinPixels
  {
  }

  /** Multiplying both sides by a positive factor keeps a strict comparison. */
  lemma {:induction false} ScaleCompare(a: nat, b: nat, k: nat)
    requires k > 0
    ensures a < b <==> k * a < k * b
  {
    if a < b {
      assert k * b - k * a == k * (b - a);
    } else {
      assert k * a - k * b == k * (a - b);
    }
  }

  lemma {:induction false} ScaleAbove(width: nat, height: nat, num: nat, den: nat, k: nat)
    requires k > 0
    ensures RatioAbove(k * width, k * height, num, den) <==> RatioAbove(width, height, num, den)
  {
    if height > 0 {
      assert k * height > 0;
      assert (k * width) * den == k * (width * den);
      assert num * (k * height) == k * (num * height);
      ScaleCompare(num * height, width * den, k);
    } else {
      assert k * height == 0;
    }
  }

  lemma {:induction false} ScaleBelow(width: nat, height: nat, num: nat, den: nat, k: nat)
    requires k > 0
    ensures RatioBelow(k * width, k * height, num, den) <==> RatioBelow(width, height, num, den)
  {
    assert (k * width) * den == k * (width * den);
    assert num * (k * height) == k * (num * height);
    ScaleCompare(width * den, num * height, k);
    if height > 0 {
      assert k * height > 0;
    } else {
      assert k * height == 0;
    }
  }

  /** Only the ratio matters: scaling both dimensions by the same factor selects the same size. */
  lemma {:induction false} ScaleInvariant(width: nat, height: nat, k: nat)
    requires k > 0
    ensures Select(k * width, k * height) == Select(width, height)
  {
    ScaleAbove(width, height, 3, 2, k);
    ScaleAbove(width, height, 6, 5, k);
    ScaleBelow(width, height, 3, 5, k);
    ScaleBelow(width, height, 4, 5, k);
  }

  /** For a positive height, comparing by cross-multiplication is comparing the real quotient. */
  lemma {:induction false} CrossMultiply(width: nat, height: nat, num: nat, den: nat)
    requires height > 0 && den > 0
    ensures (width as real) / (height as real) > (num as real) / (den as real) <==> width * den > num * height
    ensures (width as real) / (height as real) < (num as real) / (den as real) <==> width * den < num * height
  {
    var w, h, n, d := width as real, height as real, num as real, den as real;
    assert w / h - n / d == (w * d - n * h) / (h * d);
    assert (width * den) as real == w * d;
    assert (num * height) as real == n * h;
  }

  /**
   * The bands in the source's own terms, `ratio = width / height` as an exact quotient:
   * each ratio falls in exactly one band, and the square size covers 0.8 ≤ ratio ≤ 1.2.
   */
  lemma {:induction false} BandsByRatio(width: nat, height: nat)
    requires height > 0
    ensures var ratio := (width as real) / (height as real);
      && (Select(width, height) == Wide16x9 <==> ratio > 1.5)
      && (Select(width, height) == Wide4x3 <==> 1.2 < ratio <= 1.5)
      && (Select(width, height) == Tall9x16 <==> ratio < 0.6)
      && (Select(width, height) == Tall3x4 <==> 0.6 <= ratio < 0.8)
      && (Select(width, height) == Square <==> 0.8 <= ratio <= 1.2)
  {
    CrossMultiply(width, height, 3, 2);
    CrossMultiply(width, height, 6, 5);
    CrossMultiply(width, height, 3, 5);
    CrossMultiply(width, height, 4, 5);
    assert 1.5 == (3 as real) / (2 as real);
    assert 1.2 == (6 as real) / (5 as real);
    assert 0.6 == (3 as real) / (5 as real);
    assert 0.8 == (4 as real) / (5 as real);
  }

  /** A zero height is Infinity or NaN in the source: wide for a positive width, square otherwise. */
  lemma {:induction false} ZeroHeight(width: nat)
    ensures Select(width, 0) == (if width > 0 then Wide16x9 else Square)
  {
  }

  /** The orientation is never flipped: a wide size only for a wider image, a tall size only for a taller one. */
  lemma {:induction false} KeepsOrientation(width: nat, height: nat)
    ensures Select(width, height).IsLandscape() ==> width > height
    ensures Select(width, height).IsPortrait() ==> height > width
  {
  }

  /** 1600x900 (ratio about 1.78) gives 2560x1440; 1000x1000 falls through to the square default. */
  lemma Examples()
    ensures BestResolution(1600, 900) == "2560x1440"
    ensures BestResolution(3200, 1800) == "2560x1440"
    ensures BestResolution(1000, 1000) == "2048x2048"
  {
  }
}
