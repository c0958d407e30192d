/**
 * The pieces of Python's built-in behaviour the decoders and the client rely
 * on: reading a child of an XML element, `str()`, `str.lower()`, `int()`,
 * `str.join`, `str.split` and slicing.
 */
module PyText {
  import opened Wrappers
  import opened Errors

  /** The `.text` of one leaf element: `None` when the leaf has no text. */
  type Text = Option<string>

  /** A record element, seen as the texts of its leaf children in document order. */
  type Leaves = seq<Text>

  /** `element[i].text`: an index past the last child raises IndexError. */
  function At(leaves: Leaves, i: nat): Result<Text>
  {
    if i < |leaves| then Ok(leaves[i]) else Err(IndexError)
  }

  /** `str(text)`: a missing text becomes the four letters `None`. */
  function Str(t: Text): string
  {
    match t
    case None => "None"
    case Some(s) => s
  }

  // ---------------------------------------------------------------- lower()

  function LowerChar(c: char): char
  {
    if 'A' <= c <= 'Z' then (c as int - 'A' as int + 'a' as int) as char else c
  }

  /** `s.lower()`, restricted to the ASCII letters. */
  function Lower(s: string): string
  {
    seq(|s|, i requires 0 <= i < |s| => LowerChar(s[i]))
  }

  predicate HasNoUpper(s: string)
  {
    forall i :: 0 <= i < |s| ==> !('A' <= s[i] <= 'Z')
  }

  /** Lowering leaves no upper-case letter, keeps the length and is idempotent. */
  lemma LowerNormalizes(s: string)
    ensures |Lower(s)| == |s|
    ensures HasNoUpper(Lower(s))
    ensures Lower(Lower(s)) == Lower(s)
    ensures HasNoUpper(s) ==> Lower(s) == s
  {
    var l := Lower(s);
    forall i | 0 <= i < |s| ensures Lower(l)[i] == l[i] { }
    if HasNoUpper(s) {
      forall i | 0 <= i < |s| ensures l[i] == s[i] { }
    }
  }

  /** `str(None).lower()` is the token `none`. */
  lemma LowerOfMissing()
    ensures Lower(Str(None)) == "none"
  {
    var l := Lower("None");
    assert l[0] == 'n' && l[1] == 'o' && l[2] == 'n' && l[3] == 'e';
  }

  // ------------------------------------------------------------------ int()

  predicate IsDigit(c: char) { '0' <= c <= '9' }

  predicate AllDigits(s: string) { forall i :: 0 <= i < |s| ==> IsDigit(s[i]) }

  /** The numerals `int()` accepts here: one or more decimal digits. */
  predicate IsNumeral(s: string) { |s| > 0 && AllDigits(s) }

  function DigitValue(c: char): nat
    requires IsDigit(c)
  {
    c as int - '0' as int
  }

  /** The value of a string of decimal digits, most significant first. */
  function NumeralValue(s: string): nat
    requires AllDigits(s)
    decreases |s|
  {
    if s == [] then 0 else 10 * NumeralValue(s[..|s| - 1]) + DigitValue(s[|s| - 1])
  }

  /** `int(element.text)`, where the text may be missing. */
  function Int(t: Text): Result<int>
  {
    match t
    case None => Err(TypeError)
    case Some(s) => if IsNumeral(s) then Ok(NumeralValue(s)) else Err(ValueError)
  }

  /** `int()` of this text succeeds. */
  predicate IntOk(t: Text) { t.Some? && IsNumeral(t.value) }

  /** `int()` fails exactly as Python's does on the two kinds of bad input. */
  lemma IntOutcome(t: Text)
    ensures Int(t).Ok? <==> IntOk(t)
    ensures t.None? ==> Int(t) == Err(TypeError)
    ensures t.Some? && !IsNumeral(t.value) ==> Int(t) == Err(ValueError)
    ensures Int(t).Ok? ==> Int(t).value >= 0
  {
  }

  function DigitChar(d: nat): char
    requires d < 10
  {
    ('0' as int + d) as char
  }

  /** `str(n)` for a natural number: its shortest decimal numeral. */
  function ShowNat(n: nat): string
    decreases n
  {
    if n < 10 then [DigitChar(n)] else ShowNat(n / 10) + [DigitChar(n % 10)]
  }

  /** `str(n)` for any integer. */
  function ShowInt(n: int): string
  {
    if n < 0 then "-" + ShowNat(-n) else ShowNat(n)
  }

  /** `int(str(n)) == n`: the numeral printed for n reads back as n. */
  lemma {:induction false} ShowNatRoundTrip(n: nat)
    ensures IsNumeral(ShowNat(n))
    ensures NumeralValue(ShowNat(n)) == n
    ensures Int(Some(ShowNat(n))) == Ok(n)
    decreases n
  {
    if n >= 10 {
      ShowNatRoundTrip(n / 10);
      var s := ShowNat(n / 10) + [DigitChar(n % 10)];
      assert s[..|s| - 1] == ShowNat(n / 10);
    }
  }

  /** A printed integer holds digits and at most a leading minus sign. */
  lemma ShowIntChars(n: int)
    ensures forall i :: 0 <= i < |ShowInt(n)| ==> IsDigit(ShowInt(n)[i]) || (i == 0 && ShowInt(n)[i] == '-')
  {
    if n < 0 { ShowNatRoundTrip(-n); } else { ShowNatRoundTrip(n); }
  }

  // --------------------------------------------------------- join and split

  /** `sep.join(parts)` for a one-character separator. */
  function Join(parts: seq<string>, sep: char): string
    decreases |parts|
  {
    if |parts| == 0 then ""
    else if |parts| == 1 then parts[0]
    else parts[0] + [sep] + Join(parts[1..], sep)
  }

  /** `s.split(sep)` for a one-character separator: always at least one field. */
  function Split(s: string, sep: char): (r: seq<string>)
    ensures |r| >= 1
    decreases |s|
  {
    if s == [] then [""]
    else
      var rest := Split(s[1..], sep);
      if s[0] == sep then [""] + rest else [[s[0]] + rest[0]] + rest[1..]
  }

  /** How often c occurs in s. */
  function Count(c: char, s: string): nat
    decreases |s|
  {
    if s == [] then 0 else (if s[0] == c then 1 else 0) + Count(c, s[1..])
  }

  /** How often c occurs in all of parts together. */
  function CountAll(c: char, parts: seq<string>): nat
    decreases |parts|
  {
    if parts == [] then 0 else Count(c, parts[0]) + CountAll(c, parts[1..])
  }

  lemma {:induction false} CountAppend(c: char, a: string, b: string)
    ensures Count(c, a + b) == Count(c, a) + Count(c, b)
    decreases |a|
  {
    if a == [] {
      assert a + b == b;
    } else {
      assert (a + b)[1..] == a[1..] + b;
      CountAppend(c, a[1..], b);
    }
  }

  /** A character that occurs is counted at least once. */
  lemma {:induction false} CountPositive(c: char, s: string)
    requires c in s
    ensures Count(c, s) >= 1
    decreases |s|
  {
    if s[0] != c {
      assert s == [s[0]] + s[1..];
      CountPositive(c, s[1..]);
    }
  }

  /** The count over all parts is at least the count in any one of them. */
  lemma {:induction false} CountAllAtLeast(c: char, parts: seq<string>, k: nat)
    requires k < |parts|
    ensures CountAll(c, parts) >= Count(c, parts[k])
    decreases k
  {
    if k > 0 { CountAllAtLeast(c, parts[1..], k - 1); }
  }

  /** Splitting yields one field more than there are separators. */
  lemma {:induction false} SplitLength(s: string, sep: char)
    ensures |Split(s, sep)| == Count(sep, s) + 1
    decreases |s|
  {
    if s != [] { SplitLength(s[1..], sep); }
  }

  /** Joining n parts adds n - 1 separators to those already in the parts. */
  lemma {:induction false} JoinCount(parts: seq<string>, sep: char)
    requires |parts| >= 1
    ensures Count(sep, Join(parts, sep)) == |parts| - 1 + CountAll(sep, parts)
    decreases |parts|
  {
    if |parts| == 1 {
      assert parts[1..] == [];
    } else {
      JoinCount(parts[1..], sep);
      CountAppend(sep, parts[0] + [sep], Join(parts[1..], sep));
      CountAppend(sep, parts[0], [sep]);
    }
  }

  lemma {:induction false} SplitNoSeparator(p: string, sep: char)
    requires sep !in p
    ensures Split(p, sep) == [p]
    decreases |p|
  {
    if p != [] {
      assert p == [p[0]] + p[1..];
      SplitNoSeparator(p[1..], sep);
    }
  }

  lemma {:induction false} SplitAfterField(p: string, sep: char, rest: string)
    requires sep !in p
    ensures Split(p + [sep] + rest, sep) == [p] + Split(rest, sep)
    decreases |p|
  {
    var s := p + [sep] + rest;
    if p == [] {
      assert s[1..] == rest;
    } else {
      assert s[1..] == p[1..] + [sep] + rest;
      assert p == [p[0]] + p[1..];
      SplitAfterField(p[1..], sep, rest);
    }
  }

  /** Splitting undoes joining exactly when no part holds the separator. */
  lemma {:induction false} SplitJoin(parts: seq<string>, sep: char)
    requires |parts| >= 1
    requires forall i :: 0 <= i < |parts| ==> sep !in parts[i]
    ensures Split(Join(parts, sep), sep) == parts
    decreases |parts|
  {
    if |parts| == 1 {
      SplitNoSeparator(parts[0], sep);
    } else {
      SplitJoin(parts[1..], sep);
      SplitAfterField(parts[0], sep, Join(parts[1..], sep));
    }
  }

  // ---------------------------------------------------------------- slicing

  /** sep occurs in s starting at index k. */
  predicate OccursAt(s: string, sep: string, k: nat)
  {
    k + |sep| <= |s| && s[k..k + |sep|] == sep
  }

  /** `s.split(sep)[0]`: the text before the first occurrence of sep, or all of s. */
  function BeforeFirst(s: string, sep: string): (r: string)
    requires |sep| > 0
    ensures r <= s
    ensures forall k: nat :: k < |r| ==> !OccursAt(s, sep, k)
    ensures |r| == |s| || OccursAt(s, sep, |r|)
    decreases |s|
  {
    if |s| < |sep| then s
    else if s[..|sep|] == sep then []
    else
      var r' := BeforeFirst(s[1..], sep);
      assert forall k: nat :: 1 <= k ==> (OccursAt(s, sep, k) <==> OccursAt(s[1..], sep, k - 1));
      [s[0]] + r'
  }

  /** The text before the first occurrence is determined by where that occurrence is. */
  lemma BeforeFirstAt(s: string, sep: string, n: nat)
    requires |sep| > 0
    requires OccursAt(s, sep, n)
    requires forall k: nat :: k < n ==> !OccursAt(s, sep, k)
    ensures BeforeFirst(s, sep) == s[..n]
  {
  }

  /** Without an occurrence the whole text is kept. */
  lemma BeforeFirstNone(s: string, sep: string)
    requires |sep| > 0
    requires forall k: nat :: !OccursAt(s, sep, k)
    ensures BeforeFirst(s, sep) == s
  {
  }

  /** Every occurrence starts with the separator's first character. */
  lemma OccurrenceHeads(s: string, sep: string)
    requires |sep| > 0
    ensures forall k: nat :: OccursAt(s, sep, k) ==> s[k] == sep[0]
  {
    forall k: nat | OccursAt(s, sep, k) ensures s[k] == sep[0] {
      assert s[k..k + |sep|][0] == s[k];
    }
  }

  /** An occurrence inside a slice is an occurrence in the whole text. */
  lemma SliceOccurrences(s: string, sep: string, i: nat, j: nat)
    requires i <= j <= |s|
    ensures forall k: nat :: OccursAt(s[i..j], sep, k) ==> OccursAt(s, sep, i + k)
  {
    forall k: nat | OccursAt(s[i..j], sep, k) ensures OccursAt(s, sep, i + k) {
      forall x | 0 <= x < |sep| ensures s[i + k..i + k + |sep|][x] == sep[x] {
        assert s[i..j][k..k + |sep|][x] == sep[x];
      }
    }
  }

  /** The text before a separator whose first character it does not hold is found exactly. */
  lemma BeforeFirstOfConcat(p: string, sep: string, q: string)
    requires |sep| > 0 && sep[0] !in p
    ensures BeforeFirst(p + sep + q, sep) == p
  {
    var s := p + sep + q;
    OccurrenceHeads(s, sep);
    assert forall k :: 0 <= k < |p| ==> s[k] == p[k];
    assert s[|p|..|p| + |sep|] == sep;
    BeforeFirstAt(s, sep, |p|);
    assert s[..|p|] == p;
  }

  /** Python's `s[n:]`: empty when s is not longer than n. */
  function DropFirst(s: string, n: nat): string
  {
    if |s| <= n then "" else s[n..]
  }
}
