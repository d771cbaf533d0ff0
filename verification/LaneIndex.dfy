/** Lane indices: the current indices of several dimensions as one dense number. */
module LaneIndex {
  import opened UiTypes

  datatype Frame = Frame(dim: string, index: u32, extent: u32, instance: Option<nat>)

  const USIZE_MAX := 0xFFFF_FFFF_FFFF_FFFF

  function CheckedMul(a: nat, b: nat): Option<nat> {
    if a * b <= USIZE_MAX then Some(a * b) else None
  }

  function CheckedAdd(a: nat, b: nat): Option<nat> {
    if a + b <= USIZE_MAX then Some(a + b) else None
  }

  /** The innermost frame of a dimension. */
  function FindDim(stack: seq<Frame>, dim: string): (r: Option<Frame>)
    ensures r.Some? ==> exists i | 0 <= i < |stack| ::
                          stack[i] == r.value && r.value.dim == dim && forall j | i < j < |stack| :: stack[j].dim != dim
    ensures r.None? ==> forall i | 0 <= i < |stack| :: stack[i].dim != dim
  {
    if stack == [] then None else
    var last := stack[|stack| - 1];
    if last.dim == dim then Some(last) else FindDim(stack[..|stack| - 1], dim)
  }

  // ---------------------------------------------------------------------
  // Mixed radix
  // ---------------------------------------------------------------------

  function Product(extents: seq<u32>): nat {
    if extents == [] then 1 else extents[0] * Product(extents[1..])
  }

  /** Every digit is below its extent. */
  predicate Digits(digits: seq<nat>, extents: seq<u32>) {
    |digits| == |extents| && forall i | 0 <= i < |digits| :: digits[i] < extents[i]
  }

  /** The number whose digits these are, least significant first. */
  function Flat(digits: seq<nat>, extents: seq<u32>): nat
    requires |digits| == |extents|
  {
    if digits == [] then 0 else digits[0] + extents[0] * Flat(digits[1..], extents[1..])
  }

  function Low(n: nat, extent: nat): (digit: nat)
    requires extent > 0
    ensures digit < extent
  {
    n % extent
  }

  function High(n: nat, extent: nat): (high: nat)
    requires extent > 0
    ensures Low(n, extent) + extent * high == n
  {
    n / extent
  }

  function DigitsOf(n: nat, extents: seq<u32>): (digits: seq<nat>)
    requires forall i | 0 <= i < |extents| :: extents[i] > 0
    ensures |digits| == |extents|
    decreases |extents|
  {
    if extents == [] then [] else [Low(n, extents[0])] + DigitsOf(High(n, extents[0]), extents[1..])
  }

  lemma {:induction false} DigitsOfAreDigits(n: nat, extents: seq<u32>)
    requires forall i | 0 <= i < |extents| :: extents[i] > 0
    ensures Digits(DigitsOf(n, extents), extents)
    decreases |extents|
  {
    hide Low, High;
    if extents != [] {
      DigitsOfAreDigits(High(n, extents[0]), extents[1..]);
    }
  }

  lemma {:induction false} DigitBelow(digit: nat, extent: nat, high: nat, bound: nat)
    requires digit < extent && high < bound
    ensures digit + extent * high < extent * bound
  {
    assert extent * (high + 1) <= extent * bound;
  }

  lemma {:induction false} LowestDigit(digit: nat, extent: nat, high: nat)
    requires digit < extent
    ensures Low(digit + extent * high, extent) == digit && High(digit + extent * high, extent) == high
  {
    hide Low, High;
    var n := digit + extent * high;
    if High(n, extent) < high {
      DigitBelow(Low(n, extent), extent, High(n, extent), high);
    } else if High(n, extent) > high {
      DigitBelow(digit, extent, high, High(n, extent));
    }
  }

  lemma {:induction false} FlatIsBelowProduct(digits: seq<nat>, extents: seq<u32>)
    requires Digits(digits, extents)
    ensures Flat(digits, extents) < Product(extents)
    decreases |digits|
  {
    if digits != [] {
      FlatIsBelowProduct(digits[1..], extents[1..]);
      DigitBelow(digits[0], extents[0], Flat(digits[1..], extents[1..]), Product(extents[1..]));
    }
  }

  lemma {:induction false} DigitsOfFlat(digits: seq<nat>, extents: seq<u32>)
    requires Digits(digits, extents)
    ensures DigitsOf(Flat(digits, extents), extents) == digits
    decreases |digits|
  {
    hide Low, High;
    if digits != [] {
      DigitsOfFlat(digits[1..], extents[1..]);
      LowestDigit(digits[0], extents[0], Flat(digits[1..], extents[1..]));
    }
  }

  lemma {:induction false} FlatOfDigits(n: nat, extents: seq<u32>)
    requires (forall i | 0 <= i < |extents| :: extents[i] > 0) && n < Product(extents)
    ensures Flat(DigitsOf(n, extents), extents) == n
    decreases |extents|
  {
    hide Low, High;
    if extents != [] {
      var extent, lanes := extents[0], Product(extents[1..]);
      if High(n, extent) >= lanes {
        MultiplesGrow(extent, lanes, High(n, extent));
      }
      FlatOfDigits(High(n, extent), extents[1..]);
      assert DigitsOf(n, extents)[1..] == DigitsOf(High(n, extent), extents[1..]);
    }
  }

  lemma {:induction false} MultiplesGrow(extent: nat, a: nat, b: nat)
    requires a <= b
    ensures extent * a <= extent * b
  {
  }

  lemma {:induction false} ProductIsPositive(extents: seq<u32>)
    requires forall i | 0 <= i < |extents| :: extents[i] > 0
    ensures Product(extents) >= 1
    decreases |extents|
  {
    if extents != [] {
      ProductIsPositive(extents[1..]);
    }
  }

  // ---------------------------------------------------------------------
  // The lane of a stack
  // ---------------------------------------------------------------------

  /** Dimension `i` is on the stack, with an index below its extent. */
  predicate InRange(dim: string, extent: u32, stack: seq<Frame>) {
    extent > 0 && FindDim(stack, dim).Some? && FindDim(stack, dim).value.index < extent
  }

  predicate AllInRange(dims: seq<string>, extents: seq<u32>, stack: seq<Frame>) {
    |dims| == |extents| && forall i | 0 <= i < |dims| :: InRange(dims[i], extents[i], stack)
  }

  function Indices(dims: seq<string>, extents: seq<u32>, stack: seq<Frame>): (digits: seq<nat>)
    requires AllInRange(dims, extents, stack)
    ensures Digits(digits, extents)
  {
    seq(|dims|, i requires 0 <= i < |dims| => FindDim(stack, dims[i]).value.index)
  }

  /** There is a lane exactly when every dimension is in range and the number of lanes fits. */
  predicate HasLane(dims: seq<string>, extents: seq<u32>, stack: seq<Frame>) {
    AllInRange(dims, extents, stack) && Product(extents) <= USIZE_MAX
  }

  function Lane(dims: seq<string>, extents: seq<u32>, stack: seq<Frame>): Option<nat> {
    if HasLane(dims, extents, stack) then Some(Flat(Indices(dims, extents, stack), extents)) else None
  }

  /** `flat` and `stride` account for the dimensions before `i`. */
  ghost predicate Accounts(digits: seq<nat>, extents: seq<u32>, i: nat, flat: nat, stride: nat)
    requires |digits| == |extents| && i <= |digits|
  {
    && Flat(digits, extents) == flat + stride * Flat(digits[i..], extents[i..])
    && Product(extents) == stride * Product(extents[i..])
    && flat < stride <= USIZE_MAX
  }

  lemma {:induction false} AccountsStep(digits: seq<nat>, extents: seq<u32>, i: nat, flat: nat, stride: nat)
    requires |digits| == |extents| && i < |digits| && Accounts(digits, extents, i, flat, stride)
    requires digits[i] < extents[i] && stride * extents[i] <= USIZE_MAX
    ensures Accounts(digits, extents, i + 1, flat + digits[i] * stride, stride * extents[i])
  {
    var rest, lanes := Flat(digits[i + 1..], extents[i + 1..]), Product(extents[i + 1..]);
    assert digits[i..][1..] == digits[i + 1..] && extents[i..][1..] == extents[i + 1..];
    assert stride * (digits[i] + extents[i] * rest) == digits[i] * stride + (stride * extents[i]) * rest by {
      Distribute(stride, digits[i], extents[i], rest);
    }
    assert stride * (extents[i] * lanes) == (stride * extents[i]) * lanes by {
      Distribute(stride, 0, extents[i], lanes);
    }
    assert flat + digits[i] * stride < stride * extents[i] by {
      DigitBelow(flat, stride, digits[i], extents[i]);
    }
  }

  lemma {:induction false} Distribute(a: nat, b: nat, c: nat, d: nat)
    ensures a * (b + c * d) == b * a + (a * c) * d
  {
  }

  /** Only an overflowing product stops the accumulation: the partial sums are below it. */
  lemma {:induction false} OverflowIsExact(extents: seq<u32>, i: nat, flat: nat, stride: nat, index: nat)
    requires i < |extents| && forall j | i <= j < |extents| :: extents[j] > 0
    requires Product(extents) == stride * Product(extents[i..]) && flat < stride && index < extents[i]
    ensures index * stride <= flat + index * stride < stride * extents[i]
    ensures stride * extents[i] <= Product(extents)
  {
    DigitBelow(flat, stride, index, extents[i]);
    var lanes := Product(extents[i + 1..]);
    assert extents[i..][1..] == extents[i + 1..];
    ProductIsPositive(extents[i + 1..]);
    Distribute(stride, 0, extents[i], lanes);
    assert stride * extents[i] * 1 <= stride * extents[i] * lanes;
  }

  method ComputeLaneIndex(dims: seq<string>, extents: seq<u32>, stack: seq<Frame>) returns (r: Option<nat>)
    ensures r == Lane(dims, extents, stack)
  {
    if |dims| != |extents| {
      return None;
    }
    var flat: nat, stride: nat := 0, 1;
    assert dims[..0] == [] && extents[0..] == extents;
    for i := 0 to |dims|
      invariant forall j | 0 <= j < i :: InRange(dims[j], extents[j], stack)
      invariant AllInRange(dims, extents, stack) ==> Accounts(Indices(dims, extents, stack), extents, i, flat, stride)
      invariant flat <= USIZE_MAX && stride <= USIZE_MAX
    {
      if extents[i] == 0 {
        return None;
      }
      var frame := FindDim(stack, dims[i]);
      if frame.None? {
        return None;
      }
      if frame.value.index >= extents[i] {
        return None;
      }
      var offset := CheckedMul(frame.value.index, stride);
      var sum := if offset.Some? then CheckedAdd(flat, offset.value) else None;
      var next := CheckedMul(stride, extents[i]);
      if AllInRange(dims, extents, stack) {
        OverflowIsExact(extents, i, flat, stride, frame.value.index);
        if next.Some? {
          AccountsStep(Indices(dims, extents, stack), extents, i, flat, stride);
        }
      }
      if sum.None? || next.None? {
        return None;
      }
      flat, stride := sum.value, next.value;
    }
    assert AllInRange(dims, extents, stack);
    return Some(flat);
  }

  /** Lanes are dense: below their number, and different when some index differs. */
  lemma {:induction false} LanesAreDistinct(dims: seq<string>, extents: seq<u32>, a: seq<Frame>, b: seq<Frame>)
    requires HasLane(dims, extents, a) && HasLane(dims, extents, b)
    ensures Lane(dims, extents, a).value < Product(extents)
    ensures Lane(dims, extents, a) == Lane(dims, extents, b) <==> Indices(dims, extents, a) == Indices(dims, extents, b)
  {
    FlatIsBelowProduct(Indices(dims, extents, a), extents);
    DigitsOfFlat(Indices(dims, extents, a), extents);
    DigitsOfFlat(Indices(dims, extents, b), extents);
  }

  function StackOf(dims: seq<string>, extents: seq<u32>, digits: seq<nat>): seq<Frame>
    requires |dims| == |extents| && Digits(digits, extents)
  {
    seq(|dims|, i requires 0 <= i < |dims| => Frame(dims[i], digits[i], extents[i], None))
  }

  /** Every number below the product is the lane of some stack, when the dimensions are different. */
  lemma {:induction false} EveryLaneIsReached(dims: seq<string>, extents: seq<u32>, n: nat)
    requires |dims| == |extents| && forall i | 0 <= i < |extents| :: extents[i] > 0
    requires forall i, j | 0 <= i < j < |dims| :: dims[i] != dims[j]
    requires n < Product(extents) <= USIZE_MAX
    ensures Digits(DigitsOf(n, extents), extents)
    ensures Lane(dims, extents, StackOf(dims, extents, DigitsOf(n, extents))) == Some(n)
  {
    DigitsOfAreDigits(n, extents);
    var digits := DigitsOf(n, extents);
    var stack := StackOf(dims, extents, digits);
    forall i | 0 <= i < |dims|
      ensures FindDim(stack, dims[i]) == Some(stack[i])
    {
      assert stack[i].dim == dims[i];
      var found := FindDim(stack, dims[i]);
      var k :| 0 <= k < |stack| && stack[k] == found.value && found.value.dim == dims[i];
      assert k == i;
    }
    assert Indices(dims, extents, stack) == digits;
    FlatOfDigits(n, extents);
  }
}
