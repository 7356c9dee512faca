/**
 * The "smallest free ColorN" numbering the generators use for new colour
 * variations under the "Color Menu" object.
 *
 * A child name takes a number when it matches `^Color(\d+)$` and the
 * captured digits parse as a 32-bit `int`. The regular expression is
 * written out as character predicates: `$` matches at the end of the
 * name and also just before a final newline. `\d` is taken as the ASCII
 * digits; a name with other Unicode digits matches the expression but
 * fails `int.TryParse`, so the outcome is the same.
 */
module ColorNumbering {
  import opened Collections
  import opened Text

  const ColorPrefix: string := "Color"
  const Int32Max: int := 2147483647

  /** The digits `^Color(\d+)$` captures in `name`, if it matches. */
  function ColorDigits(name: string): (r: Option<string>)
    ensures r.Some? ==> |r.value| > 0 && AllDigits(r.value)
    ensures r.Some? ==> name == ColorPrefix + r.value || name == ColorPrefix + r.value + "\n"
  {
    if |name| < |ColorPrefix| || name[..|ColorPrefix|] != ColorPrefix then None
    else
      var rest := name[|ColorPrefix|..];
      var body := if |rest| > 0 && rest[|rest| - 1] == '\n' then rest[..|rest| - 1] else rest;
      assert name == ColorPrefix + rest;
      assert body != rest ==> rest == body + "\n";
      if |body| > 0 && AllDigits(body) then Some(body) else None
  }

  /** Every name of the form Color<digits>, with or without a final newline, matches and captures those digits. */
  lemma ColorDigitsOf(d: string)
    requires |d| > 0 && AllDigits(d)
    ensures ColorDigits(ColorPrefix + d) == Some(d)
    ensures ColorDigits(ColorPrefix + d + "\n") == Some(d)
  {
    assert (ColorPrefix + d)[|ColorPrefix|..] == d;
    assert (ColorPrefix + d + "\n")[|ColorPrefix|..] == d + "\n";
    assert (d + "\n")[..|d|] == d;
    assert (ColorPrefix + d)[..|ColorPrefix|] == ColorPrefix;
    assert (ColorPrefix + d + "\n")[..|ColorPrefix|] == ColorPrefix;
  }

  /** The number a child name takes: the captured digits, when `int.TryParse` accepts them. */
  function ColorNumberOf(name: string): (r: Option<int>)
    ensures r.Some? ==> 0 <= r.value <= Int32Max
    ensures r.Some? <==> ColorDigits(name).Some? && DigitsValue(ColorDigits(name).value) <= Int32Max
  {
    match ColorDigits(name)
    case None => None
    case Some(d) => if DigitsValue(d) <= Int32Max then Some(DigitsValue(d)) else None
  }

  /** The name given to colour variation `n` takes the number `n` back. */
  lemma ColorNameNumber(n: nat)
    requires n <= Int32Max
    ensures ColorNumberOf(ColorPrefix + NatToString(n)) == Some(n)
  {
    ColorDigitsOf(NatToString(n));
  }

  /** The numbers taken by the children named `names` (the `existingNumbers` set). */
  function Taken(names: seq<string>): (s: set<int>)
    ensures forall x :: x in s ==> 0 <= x <= Int32Max
  {
    if |names| == 0 then {}
    else
      var prev := Taken(names[..|names| - 1]);
      match ColorNumberOf(names[|names| - 1])
      case None => prev
      case Some(n) => prev + {n}
  }

  /** A number is taken exactly when some child name takes it. */
  lemma {:induction false} TakenMember(names: seq<string>, n: int)
    ensures n in Taken(names) <==> exists i :: 0 <= i < |names| && ColorNumberOf(names[i]) == Some(n)
  {
    if |names| > 0 {
      var init := names[..|names| - 1];
      TakenMember(init, n);
      assert forall i :: 0 <= i < |init| ==> init[i] == names[i];
      assert n in Taken(names) <==> n in Taken(init) || ColorNumberOf(names[|names| - 1]) == Some(n);
    }
  }

  /** The smallest number from `k` on that is not taken. */
  function SmallestFreeFrom(taken: set<int>, k: int): (n: int)
    requires forall x :: x in taken ==> x <= Int32Max
    requires k <= Int32Max + 1
    ensures n >= k && n !in taken
    ensures forall j :: k <= j < n ==> j in taken
    decreases Int32Max + 1 - k
  {
    if k in taken then SmallestFreeFrom(taken, k + 1) else k
  }

  /** The smallest positive number no child name takes. */
  function NextColorNumber(names: seq<string>): (n: int)
    ensures n >= 1 && n !in Taken(names)
    ensures forall j :: 1 <= j < n ==> j in Taken(names)
  {
    SmallestFreeFrom(Taken(names), 1)
  }

  /** DetermineNextColorNumber over the names of the Color Menu's children. */
  method DetermineNextColorNumber(childNames: seq<string>) returns (nextNumber: int)
    ensures nextNumber == NextColorNumber(childNames)
    ensures nextNumber >= 1
    ensures forall i :: 0 <= i < |childNames| ==> ColorNumberOf(childNames[i]) != Some(nextNumber)
    ensures forall j :: 1 <= j < nextNumber ==> exists i :: 0 <= i < |childNames| && ColorNumberOf(childNames[i]) == Some(j)
  {
    var existingNumbers: set<int> := {};
    for i := 0 to |childNames|
      invariant existingNumbers == Taken(childNames[..i])
    {
      assert childNames[..i + 1][..i] == childNames[..i];
      var captured := ColorDigits(childNames[i]);
      if captured.Some? && DigitsValue(captured.value) <= Int32Max {
        existingNumbers := existingNumbers + {DigitsValue(captured.value)};
      }
    }
    assert childNames[..|childNames|] == childNames;
    nextNumber := 1;
    while nextNumber in existingNumbers
      invariant 1 <= nextNumber <= Int32Max + 1
      invariant SmallestFreeFrom(existingNumbers, nextNumber) == SmallestFreeFrom(existingNumbers, 1)
      decreases Int32Max + 1 - nextNumber
    {
      nextNumber := nextNumber + 1;
    }
    TakenMember(childNames, nextNumber);
    forall j | 1 <= j < nextNumber
      ensures exists i :: 0 <= i < |childNames| && ColorNumberOf(childNames[i]) == Some(j)
    {
      TakenMember(childNames, j);
    }
  }

  /**
   * The start number is computed once: the numbers after it are not
   * checked again, so a later variation can take the name of an existing
   * child. With one child "Color2", the second of two new variations is
   * named "Color2" as well.
   */
  lemma LaterNumbersNotRechecked()
    ensures NextColorNumber(["Color2"]) == 1
    ensures ColorPrefix + NatToString(NextColorNumber(["Color2"]) + 1) == "Color2"
  {
    ColorNameNumber(2);
    assert NatToString(2) == "2";
    assert ColorNumberOf("Color2") == Some(2);
    assert ["Color2"][..0] == [];
    assert Taken(["Color2"]) == {2};
  }
}
