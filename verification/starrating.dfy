/**
 * The ten-star rating widget: the hover state it keeps, what a click asks
 * the caller to do, which stars are filled and the "n/10" label.
 */
module StarRating {
  import opened Wrappers
  import opened Text

  /** The number of stars drawn. */
  const StarCount := 10

  function Clamp(x: int, lo: int, hi: int): int
    requires lo <= hi
  {
    if x < lo then lo else if x > hi then hi else x
  }

  /** The fill of stars `1..count`: star `k` is filled when `k <= display`. */
  function FillPattern(display: int, count: nat): (p: seq<bool>)
    ensures |p| == count
    ensures forall i :: 0 <= i < count ==> (p[i] <==> i + 1 <= display)
  {
    seq(count, i requires 0 <= i < count => i + 1 <= display)
  }

  function CountFilled(p: seq<bool>): nat {
    if p == [] then 0 else CountFilled(p[..|p| - 1]) + (if p[|p| - 1] then 1 else 0)
  }

  /** The filled stars come first: a filled star is preceded only by filled stars. */
  lemma FilledStarsArePrefix(display: int, i: nat, j: nat)
    requires i < j < StarCount && FillPattern(display, StarCount)[j]
    ensures FillPattern(display, StarCount)[i]
  {
  }

  /** The number of filled stars is the displayed rating clamped to `0..count`. */
  lemma {:induction false} CountFilledIsClamp(display: int, count: nat)
    ensures CountFilled(FillPattern(display, count)) == Clamp(display, 0, count)
  {
    if count > 0 {
      var p := FillPattern(display, count);
      assert p[..count - 1] == FillPattern(display, count - 1);
      CountFilledIsClamp(display, count - 1);
    }
  }

  class StarRatingWidget {
    /** The rating the caller owns. */
    const rating: int
    const readonly: bool
    /** Whether the caller passed an `onChange` handler. */
    const hasOnChange: bool
    const showValue: bool
    var hoverRating: int

    /** A read-only widget never records a hover. */
    predicate Valid()
      reads this
    {
      readonly ==> hoverRating == 0
    }

    constructor (rating: int, readonly: bool, hasOnChange: bool, showValue: bool)
      ensures this.rating == rating && this.readonly == readonly
      ensures this.hasOnChange == hasOnChange && this.showValue == showValue
      ensures hoverRating == 0 && Valid()
    {
      this.rating := rating;
      this.readonly := readonly;
      this.hasOnChange := hasOnChange;
      this.showValue := showValue;
      hoverRating := 0;
    }

    /**
     * `handleStarClick`: the value passed to `onChange`, if it is called;
     * it is called with the clicked star exactly when the widget is editable
     * and has a handler. Nothing in the widget changes.
     */
    method HandleStarClick(star: int) returns (onChange: Option<int>)
      ensures onChange.Some? <==> !readonly && hasOnChange
      ensures onChange.Some? ==> onChange.value == star
    {
      if !readonly && hasOnChange {
        onChange := Some(star);
      } else {
        onChange := None;
      }
    }

    /** `handleStarHover`: an editable widget records the hovered star. */
    method HandleStarHover(star: int)
      requires Valid()
      modifies this
      ensures hoverRating == if readonly then old(hoverRating) else star
      ensures Valid()
    {
      if !readonly {
        hoverRating := star;
      }
    }

    /** `handleMouseLeave`: an editable widget forgets the hover. */
    method HandleMouseLeave()
      requires Valid()
      modifies this
      ensures hoverRating == if readonly then old(hoverRating) else 0
      ensures hoverRating == 0 && Valid()
    {
      if !readonly {
        hoverRating := 0;
      }
    }

    /** `displayRating`: the hovered star while there is one, else the rating. */
    function DisplayRating(): (d: int)
      reads this
      ensures hoverRating != 0 ==> d == hoverRating
      ensures hoverRating == 0 ==> d == rating
      ensures Valid() && readonly ==> d == rating
    {
      if hoverRating != 0 then hoverRating else rating
    }

    /** `isFilled` of star `k`. */
    predicate IsFilled(star: int)
      reads this
    {
      star <= DisplayRating()
    }

    /** The fill of the ten stars, and how many of them are filled. */
    function Stars(): (p: seq<bool>)
      reads this
      ensures |p| == StarCount
      ensures forall i :: 0 <= i < StarCount ==> (p[i] <==> IsFilled(i + 1))
      ensures CountFilled(p) == Clamp(DisplayRating(), 0, StarCount)
    {
      CountFilledIsClamp(DisplayRating(), StarCount);
      FillPattern(DisplayRating(), StarCount)
    }

    /** The `"n/10"` label, shown only with `showValue`; it reads back as the displayed rating. */
    function ValueLabel(): (text: Option<string>)
      reads this
      ensures text.Some? <==> showValue
      ensures text.Some? ==> text.value == Decimal(DisplayRating()) + "/10"
      ensures text.Some? ==> ParseInt(text.value) == Some(DisplayRating())
    {
      if showValue then
        var shown := Decimal(DisplayRating()) + "/10";
        ParseIntOfDecimal(DisplayRating(), "/10");
        Some(shown)
      else None
    }
  }
}
