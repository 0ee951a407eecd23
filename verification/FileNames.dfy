/** Names for downloaded files: the offered name, or the first numbered variant that is not taken. */
module FileNames {

  function DigitChar(d: nat): char
    requires d < 10
  {
    '0' + d as char
  }

  /** std::to_string of a counter. */
  function Decimal(n: nat): string {
    if n < 10 then [DigitChar(n)] else Decimal(n / 10) + [DigitChar(n % 10)]
  }

  lemma {:induction false} DecimalInjective(m: nat, n: nat)
    requires Decimal(m) == Decimal(n)
    ensures m == n
    decreases m
  {
    DecimalLength(m);
    DecimalLength(n);
    var a, b := Decimal(m), Decimal(n);
    assert a[|a| - 1] == DigitChar(m % 10) && b[|b| - 1] == DigitChar(n % 10);
    if m >= 10 && n >= 10 {
      assert Decimal(m / 10) == a[..|a| - 1] && Decimal(n / 10) == b[..|b| - 1];
      DecimalInjective(m / 10, n / 10);
    }
  }

  lemma {:induction false} DecimalLength(n: nat)
    ensures |Decimal(n)| >= 1
    ensures n >= 10 ==> |Decimal(n)| >= 2
  {
    if n >= 10 {
      DecimalLength(n / 10);
    }
  }

  /** Where the extension starts: at the last dot, unless that is the first character. */
  function ExtensionAt(name: string, k: nat): (i: nat)
    requires k <= |name|
    ensures i <= |name|
  {
    if k <= 1 then |name| else if name[k - 1] == '.' then k - 1 else ExtensionAt(name, k - 1)
  }

  function Variant(name: string, counter: nat): string {
    var dot := ExtensionAt(name, |name|);
    name[..dot] + " (" + Decimal(counter) + ")" + name[dot..]
  }

  lemma VariantInjective(name: string, j: nat, k: nat)
    requires Variant(name, j) == Variant(name, k)
    ensures j == k
  {
    var dot := ExtensionAt(name, |name|);
    var a, b := Variant(name, j), Variant(name, k);
    var head := |name[..dot] + " ("|;
    assert |a| == head + |Decimal(j)| + 1 + |name[dot..]|;
    assert |b| == head + |Decimal(k)| + 1 + |name[dot..]|;
    assert a[head..head + |Decimal(j)|] == Decimal(j);
    assert b[head..head + |Decimal(k)|] == Decimal(k);
    DecimalInjective(j, k);
  }

  /** The first free variant from a counter on. A variant that is taken cannot be met again, so it may be struck off. */
  function FirstFree(taken: set<string>, name: string, counter: nat): string
    decreases |taken|
  {
    if Variant(name, counter) !in taken then Variant(name, counter)
    else FirstFree(taken - {Variant(name, counter)}, name, counter + 1)
  }

  function UniqueName(taken: set<string>, name: string): string {
    if name !in taken then name else FirstFree(taken, name, 1)
  }

  lemma {:induction false} FirstFreeIsFirst(taken: set<string>, name: string, counter: nat) returns (k: nat)
    ensures k >= counter && FirstFree(taken, name, counter) == Variant(name, k) && Variant(name, k) !in taken
    ensures forall j | counter <= j < k :: Variant(name, j) in taken
    decreases |taken|
  {
    k := counter;
    if Variant(name, counter) in taken {
      k := FirstFreeIsFirst(taken - {Variant(name, counter)}, name, counter + 1);
      if Variant(name, k) == Variant(name, counter) {
        VariantInjective(name, k, counter);
      }
    }
  }

  /** The chosen name is never one that exists. */
  lemma UniqueNameFresh(taken: set<string>, name: string)
    ensures UniqueName(taken, name) !in taken
  {
    if name in taken {
      var k := FirstFreeIsFirst(taken, name, 1);
    }
  }

  /** The search for a name ends: every taken variant is a different file. */
  method GetUniqueFilename(disk: set<string>, name: string) returns (r: string)
    ensures r == UniqueName(disk, name)
  {
    if name !in disk {
      return name;
    }
    var counter := 1;
    ghost var left := disk;
    while Variant(name, counter) in disk
      invariant left <= disk
      invariant forall n | n in disk && n !in left :: exists j | 0 <= j < counter :: n == Variant(name, j)
      invariant FirstFree(left, name, counter) == FirstFree(disk, name, 1)
      decreases |left|
    {
      if Variant(name, counter) !in left {
        var j :| 0 <= j < counter && Variant(name, counter) == Variant(name, j);
        VariantInjective(name, counter, j);
        assert false;
      }
      left := left - {Variant(name, counter)};
      counter := counter + 1;
    }
    r := Variant(name, counter);
  }
}
