/** A numeral in some base, stored as a doubly-linked chain of digit nodes:
    front holds the most significant digit, rear the least significant. */
module LinkedNumbers {
  import opened Numerals

  /** The failures that LinkedNumberException reports. */
  datatype Error = EmptyInput | InvalidNumber | InvalidPosition

  datatype Result<T> = Ok(value: T) | Err(error: Error)

  datatype Outcome = Pass | Fail(error: Error)

  /** The digits after addDigit(d, position) succeeds: position 0 puts d in
      front, the last position appends d as the new rear, and every other
      position leaves the digits as they are. */
  function AfterAdd(s: string, d: char, position: nat): string
    requires position < |s|
  {
    if position == 0 then [d] + s
    else if position == |s| - 1 then s + [d]
    else s
  }

  /** The digits after removeDigit(position) succeeds: position 0 drops the
      rear, the last position drops the front, and every other position
      leaves the digits as they are. */
  function AfterRemove(s: string, position: nat): string
    requires position < |s|
    requires position == 0 ==> |s| >= 3
  {
    if position == 0 then s[..|s| - 1]
    else if position == |s| - 1 then s[1..]
    else s
  }

  /** Adding at the front puts the new digit at the highest place. */
  lemma AddFrontValue(s: string, d: char, b: int)
    requires |s| > 0
    ensures AfterAdd(s, d, 0)[1..] == s && AfterAdd(s, d, 0)[0] == d
    ensures Value(AfterAdd(s, d, 0), b) == DigitValue(d) * Pow(b, |s|) + Value(s, b)
  {
  }

  /** Adding at the last position appends the new digit at the units place,
      shifting the old digits one place up. */
  lemma AddRearValue(s: string, d: char, b: int)
    requires |s| >= 2
    ensures AfterAdd(s, d, |s| - 1)[..|s|] == s && AfterAdd(s, d, |s| - 1)[|s|] == d
    ensures Value(AfterAdd(s, d, |s| - 1), b) == Value(s, b) * b + DigitValue(d)
  {
    ValueAppend(s, d, b);
    assert (s + [d])[..|s|] == s;
  }

  /** Removing at position 0 drops the units digit: the old value is the
      new one shifted up a place plus the dropped digit. */
  lemma RemoveRearValue(s: string, b: int)
    requires |s| >= 3
    ensures |AfterRemove(s, 0)| == |s| - 1
    ensures Value(s, b) == Value(AfterRemove(s, 0), b) * b + DigitValue(s[|s| - 1])
  {
    var p := s[..|s| - 1];
    assert p + [s[|s| - 1]] == s;
    ValueAppend(p, s[|s| - 1], b);
  }

  /** Removing at the last position drops the highest digit and its place
      value. */
  lemma RemoveFrontValue(s: string, b: int)
    requires |s| >= 2
    ensures AfterRemove(s, |s| - 1) == s[1..]
    ensures Value(s, b) == DigitValue(s[0]) * Pow(b, |s| - 1) + Value(AfterRemove(s, |s| - 1), b)
  {
  }

  /** Removing at the last position undoes adding at the front, and removing
      at position 0 undoes adding at the last position. */
  lemma RemoveUndoesAdd(s: string, d: char)
    requires |s| >= 1
    ensures |AfterAdd(s, d, 0)| == |s| + 1 && AfterRemove(AfterAdd(s, d, 0), |s|) == s
    ensures |s| >= 2 ==> |AfterAdd(s, d, |s| - 1)| == |s| + 1 && AfterRemove(AfterAdd(s, d, |s| - 1), 0) == s
  {
    assert ([d] + s)[1..] == s;
    assert (s + [d])[..|s|] == s;
  }

  /** A node of the chain: one digit and the links to its neighbours. */
  class DLNode {
    var element: char
    var prev: DLNode?
    var next: DLNode?

    constructor (e: char)
      ensures element == e && prev == null && next == null
    {
      element := e;
      prev := null;
      next := null;
    }
  }

  class LinkedNumber {
    var base: int
    var front: DLNode
    var rear: DLNode

    /** The digit characters, front to rear. */
    ghost var Digits: string
    /** The nodes of the chain, front to rear. */
    ghost var Nodes: seq<DLNode>

    /** The chain runs from front to rear through nodes, one distinct node
        per digit: the front has no predecessor, the rear no successor, and
        each node's next is the following node, whose prev points back. */
    ghost predicate Valid()
      reads this, Nodes
    {
      && 0 < |Nodes| == |Digits|
      && front == Nodes[0] && rear == Nodes[|Nodes| - 1]
      && front.prev == null && rear.next == null
      && (forall i, j :: 0 <= i < j < |Nodes| ==> Nodes[i] != Nodes[j])
      && (forall i :: 0 <= i < |Nodes| ==> Nodes[i].element == Digits[i])
      && (forall i :: 0 <= i < |Nodes| - 1 ==> Nodes[i].next == Nodes[i + 1] && Nodes[i + 1].prev == Nodes[i])
    }

    /** Builds the chain front to rear, one node per character of num. */
    constructor FromString(num: string, baseNum: int)
      requires |num| > 0
      ensures Valid() && fresh(Nodes)
      ensures base == baseNum && Digits == num
      ensures |num| == 1 ==> front == rear
    {
      base := baseNum;
      var first := new DLNode(num[0]);
      front := first;
      rear := first;
      Nodes := [first];
      Digits := num;
      new;
      var current: DLNode? := first;
      var i := 1;
      while current != null
        invariant 1 <= i <= |num| && |Nodes| == i
        invariant base == baseNum && Digits == num
        invariant current == Nodes[i - 1] && front == Nodes[0]
        invariant fresh(Nodes)
        invariant forall k, l :: 0 <= k < l < i ==> Nodes[k] != Nodes[l]
        invariant forall k :: 0 <= k < i ==> Nodes[k].element == num[k]
        invariant Nodes[0].prev == null && Nodes[i - 1].next == null
        invariant forall k :: 0 <= k < i - 1 ==> Nodes[k].next == Nodes[k + 1] && Nodes[k + 1].prev == Nodes[k]
        decreases |num| - i
      {
        if i == |num| {
          rear := current;
          current.next := null;
          break;
        }
        var nextNode := new DLNode(num[i]);
        current.next := nextNode;
        nextNode.prev := current;
        current := nextNode;
        Nodes := Nodes + [nextNode];
        i := i + 1;
      }
    }

    /** The string constructor: fails on an empty string, otherwise a new
        number holding exactly the given digits in the given base. */
    static method Create(num: string, baseNum: int) returns (r: Result<LinkedNumber>)
      ensures num == [] ==> r == Err(EmptyInput)
      ensures num != [] ==> r.Ok? && fresh(r.value) && fresh(r.value.Nodes) && r.value.Valid()
      ensures num != [] ==> r.value.base == baseNum && r.value.Digits == num
    {
      if num == [] {
        return Err(EmptyInput);
      }
      var ln := new LinkedNumber.FromString(num, baseNum);
      r := Ok(ln);
    }

    /** The int constructor: the decimal rendering of num, in base ten. */
    static method FromInt(num: int) returns (ln: LinkedNumber)
      requires 0 <= num <= IntMax
      ensures fresh(ln) && fresh(ln.Nodes) && ln.Valid() && ln.base == 10
      ensures ln.Digits == ToBase(num, 10)
      ensures Value(ln.Digits, 10) == num && Canonical(ln.Digits) && AllDecimal(ln.Digits)
    {
      ToBaseCorrect(num, 10);
      DecimalIsValidInTen(ToBase(num, 10));
      ln := new LinkedNumber.FromString(ToBase(num, 10), 10);
    }

    /** True exactly when every digit's value lies in 0..base-1. */
    method IsValidNumber() returns (ok: bool)
      requires Valid()
      ensures ok <==> ValidIn(Digits, base)
    {
      var current: DLNode? := front;
      ghost var k := 0;
      while current != null
        invariant 0 <= k <= |Nodes|
        invariant current == if k < |Nodes| then Nodes[k] else null
        invariant forall i :: 0 <= i < k ==> 0 <= DigitValue(Digits[i]) <= base - 1
        decreases |Nodes| - k
      {
        if DigitValue(current.element) < DigitValue('0') {
          assert DigitValue(Digits[k]) < 0;
          return false;
        }
        if DigitValue(current.element) > base - 1 {
          assert DigitValue(Digits[k]) > base - 1;
          return false;
        }
        current := current.next;
        k := k + 1;
      }
      return true;
    }

    method GetBase() returns (b: int)
      ensures b == base
    {
      b := base;
    }

    /** The most significant digit's node, which has no predecessor. */
    method GetFront() returns (f: DLNode)
      requires Valid()
      ensures f == Nodes[0] && f.prev == null && f.element == Digits[0]
    {
      f := front;
    }

    /** The least significant digit's node, which has no successor. */
    method GetRear() returns (r: DLNode)
      requires Valid()
      ensures r == Nodes[|Nodes| - 1] && r.next == null && r.element == Digits[|Digits| - 1]
    {
      r := rear;
    }

    /** Counts the nodes from front to rear. */
    method GetNumDigits() returns (count: int)
      requires Valid()
      ensures count == |Digits|
    {
      count := 0;
      var current: DLNode? := front;
      while current != null
        invariant 0 <= count <= |Nodes|
        invariant current == if count < |Nodes| then Nodes[count] else null
        decreases |Nodes| - count
      {
        count := count + 1;
        current := current.next;
      }
    }

    /** Concatenates the digit characters from front to rear. */
    method ToString() returns (output: string)
      requires Valid()
      ensures output == Digits
    {
      output := "";
      var current: DLNode? := front;
      while current != null
        invariant 0 <= |output| <= |Nodes|
        invariant output == Digits[..|output|]
        invariant current == if |output| < |Nodes| then Nodes[|output|] else null
        decreases |Nodes| - |output|
      {
        output := output + [current.element];
        current := current.next;
      }
    }

    /** Same base, same number of digits and the same rendering. */
    method Equals(other: LinkedNumber) returns (eq: bool)
      requires Valid() && other.Valid()
      ensures eq <==> base == other.base && Digits == other.Digits
    {
      if base != other.base {
        return false;
      }
      var n1 := GetNumDigits();
      var n2 := other.GetNumDigits();
      if n1 != n2 {
        return false;
      }
      var s1 := ToString();
      var s2 := other.ToString();
      if s1 != s2 {
        return false;
      }
      return true;
    }

    /** b raised to exp by repeated multiplication; 1 for a negative exp. */
    static method PowerOf(b: int, exp: int) returns (res: int)
      ensures exp >= 0 ==> res == Pow(b, exp)
      ensures exp < 0 ==> res == 1
    {
      res := 1;
      var i := 0;
      while i < exp
        invariant 0 <= i && (exp >= 0 ==> i <= exp) && (exp < 0 ==> i == 0)
        invariant res == Pow(b, i)
      {
        res := res * b;
        i := i + 1;
      }
    }

    /** Sums value(d_i) * base^(n-1-i) over the digits and renders the total
        in decimal. Each digit is read as a decimal character. */
    method AnyBaseToDecimal() returns (dec: string)
      requires Valid() && AllDecimal(Digits)
      requires 0 <= Value(Digits, base) <= IntMax
      ensures dec == ToBase(Value(Digits, base), 10)
      ensures Value(dec, 10) == Value(Digits, base) && Canonical(dec) && AllDecimal(dec)
    {
      var currNum := ToString();
      var total := 0;
      var n := GetNumDigits();
      for i := 0 to n
        invariant total + Value(currNum[i..], base) == Value(currNum, base)
      {
        ValueSuffix(currNum, i, base);
        var p := PowerOf(base, n - 1 - i);
        total := total + DigitValue(currNum[i]) * p;
      }
      assert currNum[n..] == [];
      dec := ToBase(total, 10);
      ToBaseCorrect(total, 10);
      DecimalIsValidInTen(dec);
    }

    /** Reads the digits as a decimal number and renders it in newBase by
        repeated remainder extraction. */
    method DecimalToNewBase(newBase: int) returns (output: string)
      requires Valid() && AllDecimal(Digits) && Value(Digits, 10) <= IntMax
      requires 2 <= newBase <= 16
      ensures Value(Digits, 10) >= 0
      ensures output == ToBase(Value(Digits, 10), newBase)
      ensures Value(output, newBase) == Value(Digits, 10)
      ensures Canonical(output) && ValidIn(output, newBase)
    {
      var hexChars := Alphabet;
      var s := ToString();
      DecimalIsValidInTen(s);
      ValueNonNegative(s, 10);
      var decimalNum: int := Value(s, 10);
      ghost var n: nat := decimalNum;
      ToBaseCorrect(n, newBase);
      if decimalNum == 0 {
        return "0";
      }
      output := "";
      while decimalNum > 0
        invariant 0 <= decimalNum
        invariant Extract(decimalNum, newBase) + output == Extract(n, newBase)
        decreases decimalNum
      {
        var remainder := decimalNum % newBase;
        ExtractStep(decimalNum, newBase, output);
        output := [hexChars[remainder]] + output;
        decimalNum := decimalNum / newBase;
      }
    }

    /** Fails on an invalid number; otherwise a new number in newBase with
        the same value, rendered without leading zeros. this is not modified. */
    method Convert(newBase: int) returns (r: Result<LinkedNumber>)
      requires Valid() && 2 <= newBase <= 16
      requires ValidIn(Digits, base) ==> AllDecimal(Digits) && Value(Digits, base) <= IntMax
      ensures !ValidIn(Digits, base) ==> r == Err(InvalidNumber)
      ensures ValidIn(Digits, base) ==> r.Ok? && fresh(r.value) && fresh(r.value.Nodes)
      ensures ValidIn(Digits, base) ==>
                && Value(Digits, base) >= 0 && r.value.Valid() && r.value.base == newBase
                && r.value.Digits == ToBase(Value(Digits, base), newBase)
    {
      var valid := IsValidNumber();
      if !valid {
        return Err(InvalidNumber);
      }
      ValueNonNegative(Digits, base);
      var newString := "";
      if base == 10 {
        newString := DecimalToNewBase(newBase);
      } else if newBase == 10 {
        newString := AnyBaseToDecimal();
      } else {
        var dec := AnyBaseToDecimal();
        var temp := new LinkedNumber.FromString(dec, 10);
        newString := temp.DecimalToNewBase(newBase);
        ViaDecimal(Value(Digits, base), newBase);
      }
      ToBaseCorrect(Value(Digits, base), newBase);
      var ln := new LinkedNumber.FromString(newString, newBase);
      r := Ok(ln);
    }

    /** Makes a detached node the new front. */
    method LinkFront(newNode: DLNode)
      requires Valid() && newNode !in Nodes && newNode.prev == null
      modifies this, Nodes, newNode
      ensures Valid() && base == old(base)
      ensures Nodes == [newNode] + old(Nodes) && Digits == [old(newNode.element)] + old(Digits)
    {
      front.prev := newNode;
      newNode.next := front;
      front := newNode;
      Nodes := [newNode] + Nodes;
      Digits := [newNode.element] + Digits;
    }

    /** Makes a detached node the new rear. */
    method LinkRear(newNode: DLNode)
      requires Valid() && newNode !in Nodes && newNode.next == null
      modifies this, Nodes, newNode
      ensures Valid() && base == old(base)
      ensures Nodes == old(Nodes) + [newNode] && Digits == old(Digits) + [old(newNode.element)]
    {
      rear.next := newNode;
      newNode.prev := rear;
      rear := newNode;
      Nodes := Nodes + [newNode];
      Digits := Digits + [newNode.element];
    }

    /** Detaches the rear node; its predecessor becomes the rear. */
    method UnlinkRear()
      requires Valid() && |Nodes| >= 2
      modifies this, Nodes
      ensures Valid() && base == old(base)
      ensures Nodes == old(Nodes)[..|old(Nodes)| - 1] && Digits == old(Digits)[..|old(Digits)| - 1]
    {
      var newRear := rear.prev;
      assert newRear == Nodes[|Nodes| - 2];
      rear.prev.next := null;
      rear := newRear;
      Nodes := Nodes[..|Nodes| - 1];
      Digits := Digits[..|Digits| - 1];
    }

    /** Detaches the front node; its successor becomes the front. */
    method UnlinkFront()
      requires Valid() && |Nodes| >= 2
      modifies this, Nodes
      ensures Valid() && base == old(base)
      ensures Nodes == old(Nodes)[1..] && Digits == old(Digits)[1..]
    {
      var newFront := front.next;
      assert newFront == Nodes[1];
      front.next.prev := null;
      front.next := null;
      front := newFront;
      Nodes := Nodes[1..];
      Digits := Digits[1..];
    }

    /** Out-of-range positions fail and change nothing; position 0 links a
        new front node, the last position a new rear node, and other
        positions only walk the chain. */
    method AddDigit(digit: char, position: int) returns (r: Outcome)
      requires Valid() && 0 <= position
      modifies this, Nodes
      ensures Valid() && base == old(base)
      ensures position > old(|Digits|) - 1 ==> r == Fail(InvalidPosition) && unchanged(this) && unchanged(Nodes)
      ensures position <= old(|Digits|) - 1 ==> r == Pass && Digits == AfterAdd(old(Digits), digit, position)
      ensures forall k :: 0 <= k < |Nodes| ==> Nodes[k] in old(Nodes) || fresh(Nodes[k])
    {
      var n := GetNumDigits();
      if position > n - 1 {
        return Fail(InvalidPosition);
      }
      var current: DLNode? := front;
      var newNode := new DLNode(digit);
      if position == 0 {
        LinkFront(newNode);
      }
      var m := GetNumDigits();
      if position == m - 1 {
        LinkRear(newNode);
      }
      var counter := 0;
      while counter != position
        invariant 0 <= counter <= position < |Nodes|
        invariant position > 0 ==> current == Nodes[counter]
        decreases position - counter
      {
        current := current.next;
        if counter == position {
          // the interior splice the Java writes here never runs
          assert false;
        }
        counter := counter + 1;
      }
      r := Pass;
    }

    /** Out-of-range positions fail and change nothing; position 0 unlinks
        the rear node, the last position the front node, and other positions
        only walk the chain. Succeeds with the value 1. */
    method RemoveDigit(position: int) returns (r: Result<int>)
      requires Valid() && 0 <= position
      requires position == 0 ==> |Digits| >= 3
      modifies this, Nodes
      ensures Valid() && base == old(base)
      ensures position > old(|Digits|) - 1 ==> r == Err(InvalidPosition) && unchanged(this) && unchanged(Nodes)
      ensures position <= old(|Digits|) - 1 ==> r == Ok(1) && Digits == AfterRemove(old(Digits), position)
      ensures forall k :: 0 <= k < |Nodes| ==> Nodes[k] in old(Nodes)
    {
      var n := GetNumDigits();
      if position > n - 1 {
        return Err(InvalidPosition);
      }
      var current: DLNode? := rear;
      if position == 0 {
        UnlinkRear();
      }
      var m := GetNumDigits();
      if position == m - 1 {
        UnlinkFront();
      }
      var counter := 0;
      while counter != position
        invariant 0 <= counter <= position
        invariant position > 0 ==> position <= |Nodes| && rear == Nodes[|Nodes| - 1]
        invariant position > 0 ==> current == if counter < |Nodes| then Nodes[|Nodes| - 1 - counter] else null
        decreases position - counter
      {
        current := current.prev;
        if counter == position {
          // the interior splice the Java writes here never runs
          assert false;
        }
        counter := counter + 1;
      }
      r := Ok(1);
    }
  }
}
