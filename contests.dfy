/**
 * The contest cards' binary decoration. JavaScript strings are sequences of UTF-16 code
 * units, and `slice`, `split('')` and `charCodeAt` all work on those units, so the
 * model converts a string to its code units first.
 */
module Contests {

  /** The UTF-16 code units of one character: itself, or a surrogate pair above U+FFFF. */
  function Units(c: char): (r: seq<nat>)
    ensures 1 <= |r| <= 2
    ensures forall i :: 0 <= i < |r| ==> r[i] < 0x1_0000
    ensures c as int < 0x1_0000 ==> r == [c as int]
  {
    var cp := c as int;
    if cp < 0x1_0000 then [cp]
    else [0xD800 + (cp - 0x1_0000) / 0x400, 0xDC00 + (cp - 0x1_0000) % 0x400]
  }

  /** The UTF-16 code units of a string. */
  function Utf16(s: string): (r: seq<nat>)
    ensures s != [] ==> r != [] && r[0] == Units(s[0])[0]
    ensures s == [] ==> r == []
  {
    if s == [] then [] else Units(s[0]) + Utf16(s[1..])
  }

  /** A binary digit. */
  function Digit(b: nat): char
    requires b < 2
  {
    if b == 0 then '0' else '1'
  }

  /** `n.toString(2)`: binary digits, most significant first, no leading zeros. */
  function Binary(n: nat): (r: string)
    ensures |r| >= 1
    ensures forall i :: 0 <= i < |r| ==> r[i] == '0' || r[i] == '1'
  {
    if n < 2 then [Digit(n)] else Binary(n / 2) + [Digit(n % 2)]
  }

  /** `s.padStart(8, '0')`. */
  function PadStart(s: string): (r: string)
    ensures |r| == if |s| >= 8 then |s| else 8
  {
    if |s| >= 8 then s else seq(8 - |s|, _ => '0') + s
  }

  /** The code unit as eight or more binary digits. */
  function Padded(u: nat): (r: string)
    ensures |r| >= 8
    ensures forall i :: 0 <= i < |r| ==> r[i] == '0' || r[i] == '1'
  {
    var b := Binary(u);
    var r := PadStart(b);
    assert forall i :: 0 <= i < |r| ==> r[i] == '0' || r[i] == '1' by {
      if |b| < 8 {
        forall i | 0 <= i < |r|
          ensures r[i] == '0' || r[i] == '1'
        {
          if i >= 8 - |b| {
            assert r[i] == b[i - (8 - |b|)];
          }
        }
      }
    }
    r
  }

  /** `.map(...).join('')` over code units. */
  function JoinPadded(units: seq<nat>): string {
    if units == [] then "" else Padded(units[0]) + JoinPadded(units[1..])
  }

  /** `s.slice(0, 8)`. */
  function Slice8<T>(s: seq<T>): (r: seq<T>)
    ensures |r| == if |s| < 8 then |s| else 8
    ensures r == s[..|r|]
  {
    if |s| < 8 then s else s[..8]
  }

  /** `textToBinary(text)`. */
  function TextToBinary(text: string): string {
    Slice8(JoinPadded(Slice8(Utf16(text))))
  }

  /** The value of a string of binary digits. */
  function BinaryValue(s: string): nat {
    if s == [] then 0 else 2 * BinaryValue(s[..|s| - 1]) + (if s[|s| - 1] == '1' then 1 else 0)
  }

  /** Reading the digits back gives the number. */
  lemma {:induction false} BinaryRoundTrip(n: nat)
    ensures BinaryValue(Binary(n)) == n
  {
    if n >= 2 {
      BinaryRoundTrip(n / 2);
      var b := Binary(n);
      assert b[..|b| - 1] == Binary(n / 2);
    }
  }

  /** A number below 2^k needs at most k digits. */
  lemma {:induction false} BinaryLength(n: nat, k: nat, bound: nat)
    requires k >= 1 && bound == Pow2(k) && n < bound
    ensures |Binary(n)| <= k
  {
    if n >= 2 {
      BinaryLength(n / 2, k - 1, Pow2(k - 1));
    }
  }

  function Pow2(k: nat): (r: nat)
    ensures r >= 1
  {
    if k == 0 then 1 else 2 * Pow2(k - 1)
  }

  /** Leading zeros do not change the value. */
  lemma {:induction false} LeadingZeros(z: nat, s: string)
    ensures BinaryValue(seq(z, _ => '0') + s) == BinaryValue(s)
    decreases z + |s|
  {
    var t := seq(z, _ => '0') + s;
    if s == [] {
      if z > 0 {
        assert t[..|t| - 1] == seq(z - 1, _ => '0') + [];
        LeadingZeros(z - 1, []);
      }
    } else {
      assert t[..|t| - 1] == seq(z, _ => '0') + s[..|s| - 1];
      LeadingZeros(z, s[..|s| - 1]);
    }
  }

  /** The output is made just of the first code unit's digits: the rest of the text never shows. */
  lemma FirstUnitOnly(text: string)
    ensures text == [] ==> TextToBinary(text) == ""
    ensures text != [] ==> TextToBinary(text) == Padded(Utf16(text)[0])[..8]
  {
    if text != [] {
      var u := Slice8(Utf16(text));
      assert u[0] == Utf16(text)[0];
      assert JoinPadded(u) == Padded(u[0]) + JoinPadded(u[1..]);
      assert JoinPadded(u)[..8] == Padded(u[0])[..8];
    }
  }

  /** An empty text gives ""; any other gives exactly eight binary digits. */
  lemma TextToBinaryShape(text: string)
    ensures |TextToBinary(text)| == if text == [] then 0 else 8
    ensures forall i :: 0 <= i < |TextToBinary(text)| ==> TextToBinary(text)[i] == '0' || TextToBinary(text)[i] == '1'
  {
    FirstUnitOnly(text);
    if text != [] {
      var p := Padded(Utf16(text)[0]);
      assert forall i :: 0 <= i < 8 ==> p[..8][i] == p[i];
    }
  }

  /** Texts that begin with the same character get the same decoration. */
  lemma SameFirstCharacter(a: string, b: string)
    requires a != [] && b != [] && a[0] == b[0]
    ensures TextToBinary(a) == TextToBinary(b)
  {
    FirstUnitOnly(a);
    FirstUnitOnly(b);
  }

  /** For a first character below 256 the output is its code as eight binary digits. */
  lemma SmallFirstCharacter(text: string)
    requires text != [] && text[0] as int < 256
    ensures |TextToBinary(text)| == 8
    ensures BinaryValue(TextToBinary(text)) == text[0] as int
  {
    FirstUnitOnly(text);
    var n := text[0] as int;
    assert Utf16(text)[0] == n;
    assert Pow2(8) == 256;
    BinaryLength(n, 8, 256);
    BinaryRoundTrip(n);
    var b := Binary(n);
    LeadingZeros(8 - |b|, b);
    if |b| == 8 {
      assert PadStart(b) == seq(0, _ => '0') + b;
    }
  }

  /** The eight decorations, built from eight words. */
  function Patterns(): (r: seq<string>)
    ensures |r| == 8
  {
    [TextToBinary("CONTEST"), TextToBinary("CODING"), TextToBinary("BATTLE"), TextToBinary("FIGHT"),
     TextToBinary("WIN"), TextToBinary("CODE"), TextToBinary("ALGO"), TextToBinary("DATA")]
  }

  /** The sum of a list of code units. */
  function Sum(units: seq<nat>): nat {
    if units == [] then 0 else units[0] + Sum(units[1..])
  }

  /** `contestName.split('').reduce((a, b) => a + b.charCodeAt(0), 0)`. */
  function CodeSum(name: string): nat {
    Sum(Utf16(name))
  }

  /** `generateBinaryPattern(contestName, index)`; `index` is never read. */
  function GeneratePattern(contestName: string, index: int): (r: string)
    ensures r in Patterns()
  {
    Patterns()[CodeSum(contestName) % |Patterns()|]
  }

  lemma {:induction false} SumAppend(a: seq<nat>, b: seq<nat>)
    ensures Sum(a + b) == Sum(a) + Sum(b)
  {
    if a != [] {
      SumAppend(a[1..], b);
      assert (a + b)[1..] == a[1..] + b;
    } else {
      assert a + b == b;
    }
  }

  lemma {:induction false} Utf16Append(a: string, b: string)
    ensures Utf16(a + b) == Utf16(a) + Utf16(b)
  {
    if a != [] {
      Utf16Append(a[1..], b);
      assert (a + b)[1..] == a[1..] + b;
    } else {
      assert a + b == b;
    }
  }

  /** The hash adds up the characters one by one. */
  lemma CodeSumAppend(a: string, b: string)
    ensures CodeSum(a + b) == CodeSum(a) + CodeSum(b)
  {
    Utf16Append(a, b);
    SumAppend(Utf16(a), Utf16(b));
  }

  /** Rearranging the characters of a name keeps its hash. */
  lemma {:induction false} CodeSumPermutation(a: string, b: string)
    requires multiset(a) == multiset(b)
    ensures CodeSum(a) == CodeSum(b)
    decreases |a|
  {
    if a != [] {
      assert a[0] in multiset(b);
      var k :| 0 <= k < |b| && b[k] == a[0];
      var rest := b[..k] + b[k + 1..];
      assert b == b[..k] + [b[k]] + b[k + 1..];
      assert a == [a[0]] + a[1..];
      assert multiset(b) == multiset(b[..k]) + multiset{b[k]} + multiset(b[k + 1..]);
      assert multiset(rest) == multiset(b[..k]) + multiset(b[k + 1..]);
      assert multiset(a) == multiset{a[0]} + multiset(a[1..]);
      assert multiset(a[1..]) == multiset(a) - multiset{a[0]};
      assert multiset(rest) == multiset(b) - multiset{b[k]};
      CodeSumPermutation(a[1..], rest);
      CodeSumAppend([a[0]], a[1..]);
      CodeSumAppend(b[..k] + [b[k]], b[k + 1..]);
      CodeSumAppend(b[..k], [b[k]]);
      CodeSumAppend(b[..k], b[k + 1..]);
    } else {
      assert b == [];
    }
  }

  /** Names that are rearrangements of each other get the same pattern, whatever the index. */
  lemma PatternOfPermutation(a: string, b: string, i: int, j: int)
    requires multiset(a) == multiset(b)
    ensures GeneratePattern(a, i) == GeneratePattern(b, j)
  {
    CodeSumPermutation(a, b);
  }
}
