/**
 * The current set record (brickfront/build.py): one LEGO set decoded by
 * position from the leaf children of one XML element, with guarded integer
 * coercions, a case-insensitive `released` token table and, when a user hash
 * is given, the removal of child 20 from the caller's element.
 */
module Builds {
  import opened Wrappers
  import opened Errors
  import opened PyText

  /** `released`: a recognised token gives a flag; any other text is kept as it came. */
  datatype Released = Flag(value: bool) | Passed(text: Text)

  /**
   * The attributes of one `Build`. `raw` is the element's list of children as
   * the constructor leaves it; `rating` is the text handed to `float()`.
   */
  datatype Build = Build(
    raw: Leaves,
    setID: int,
    number: Text,
    variant: int,
    name: Text,
    year: Text,
    theme: Text,
    themeGroup: Text,
    subtheme: Text,
    pieces: Option<int>,
    minifigs: Option<int>,
    imageURL: Text,
    bricksetURL: Text,
    priceUK: Text,
    priceUS: Text,
    priceCA: Text,
    priceEU: Text,
    rating: Text,
    released: Released)

  /** The child that a user-specific response carries in addition (`del data[20]`). */
  const UserHashIndex: nat := 20

  /** Python's `del data[i]` on a list long enough for it. */
  function RemoveAt(leaves: Leaves, i: nat): Leaves
    requires i < |leaves|
  {
    leaves[..i] + leaves[i + 1..]
  }

  /** The caller's element after the constructor has run: shortened by one when a hash is given and child 20 exists. */
  function LeavesAfter(data: Leaves, userHash: string): Leaves
  {
    if userHash != "" && UserHashIndex < |data| then RemoveAt(data, UserHashIndex) else data
  }

  /** `try: int(text) except TypeError: None` — a malformed numeral still raises. */
  function GuardedInt(t: Text): Result<Option<int>>
  {
    if t.None? then Ok(None)
    else
      var n :- Int(t);
      Ok(Some(n))
  }

  /** The token table of `released`, indexed by the lower-cased `str()` of the text. */
  const ReleasedTokens: map<string, bool> :=
    map["true" := true, "0" := false, "1" := true, "false" := false, "none" := false]

  /** `released`: the table lookup, or on KeyError the text itself. */
  function ReleasedOf(t: Text): Released
  {
    var key := Lower(Str(t));
    if key in ReleasedTokens then Flag(ReleasedTokens[key]) else Passed(t)
  }

  /** The field reads of `__init__` in source order, once the hash deletion is done. */
  function DecodeFields(data: Leaves): Result<Build>
  {
    var t0 :- At(data, 0);
    var setID :- Int(t0);
    var number :- At(data, 1);
    var t2 :- At(data, 2);
    var variant :- Int(t2);
    var name :- At(data, 3);
    var year :- At(data, 4);
    var theme :- At(data, 5);
    var themeGroup :- At(data, 6);
    var subtheme :- At(data, 7);
    var t8 :- At(data, 8);
    var pieces :- GuardedInt(t8);
    var t9 :- At(data, 9);
    var minifigs :- GuardedInt(t9);
    var imageURL :- At(data, 14);
    var bricksetURL :- At(data, 15);
    var priceUK :- At(data, 23);
    var priceUS :- At(data, 24);
    var priceCA :- At(data, 25);
    var priceEU :- At(data, 26);
    var rating :- At(data, 29);   // kept as the text float() would read; None when missing
    var t16 :- At(data, 16);
    Ok(Build(data, setID, number, variant, name, year, theme, themeGroup, subtheme,
             pieces, minifigs, imageURL, bricksetURL, priceUK, priceUS, priceCA, priceEU,
             rating, ReleasedOf(t16)))
  }

  /** `Build(data, userHash)`: what the constructor yields or raises. */
  function DecodeSet(data: Leaves, userHash: string): Result<Build>
  {
    if userHash == "" then DecodeFields(data)
    else if UserHashIndex < |data| then DecodeFields(RemoveAt(data, UserHashIndex))
    else Err(IndexError)
  }

  /** The element a `Build` is constructed from, as the list object the caller holds. */
  class RecordElement {
    var leaves: Leaves

    constructor (leaves: Leaves)
      ensures this.leaves == leaves
    {
      this.leaves := leaves;
    }

    /** `del element[i]`: removes child i, or raises IndexError and changes nothing. */
    method DeleteAt(i: nat) returns (ok: bool)
      modifies this
      ensures ok == (i < |old(leaves)|)
      ensures ok ==> leaves == RemoveAt(old(leaves), i)
      ensures !ok ==> leaves == old(leaves)
    {
      ok := i < |leaves|;
      if ok {
        leaves := leaves[..i] + leaves[i + 1..];
      }
    }
  }

  /**
   * `Build(data, userHash)` run against the caller's element: the deletion is
   * visible to the caller afterwards, also when decoding then fails, and the
   * record's `raw` is the shortened list.
   */
  method NewBuild(data: RecordElement, userHash: string) returns (r: Result<Build>)
    modifies data
    ensures data.leaves == LeavesAfter(old(data.leaves), userHash)
    ensures r == DecodeSet(old(data.leaves), userHash)
    ensures r.Ok? ==> r.value.raw == data.leaves
  {
    if userHash != "" {
      var ok := data.DeleteAt(UserHashIndex);
      if !ok {
        return Err(IndexError);
      }
    }
    r := DecodeFields(data.leaves);
  }

  // ------------------------------------------------------------- properties

  /** `int()` with the TypeError guard succeeds on a missing text or a numeral. */
  predicate GuardedIntOk(t: Text) { t.None? || IsNumeral(t.value) }

  /** The number of children a successful decode needs. */
  function RequiredLength(userHash: string): nat
  {
    if userHash == "" then 30 else 31
  }

  /** `pieces`/`minifigs` are None exactly for a missing text; only a malformed numeral raises. */
  lemma GuardedIntOutcome(t: Text)
    ensures GuardedInt(t) == Ok(None) <==> t.None?
    ensures t.Some? && IsNumeral(t.value) ==> GuardedInt(t) == Ok(Some(NumeralValue(t.value)))
    ensures t.Some? && !IsNumeral(t.value) ==> GuardedInt(t) == Err(ValueError)
  {
  }

  /** Decoding without a hash succeeds exactly when there are 30 children and the coerced ones are well formed. */
  lemma DecodeFieldsSucceeds(data: Leaves)
    ensures DecodeFields(data).Ok? <==>
      |data| >= 30 && IntOk(data[0]) && IntOk(data[2]) && GuardedIntOk(data[8]) && GuardedIntOk(data[9])
  {
  }

  /** Every field of a successful decode comes from its fixed child index. */
  lemma DecodeFieldsAt(data: Leaves)
    requires DecodeFields(data).Ok?
    ensures var b := DecodeFields(data).value;
      && |data| >= 30
      && b.raw == data
      && Ok(b.setID) == Int(data[0]) && b.number == data[1] && Ok(b.variant) == Int(data[2])
      && b.name == data[3] && b.year == data[4] && b.theme == data[5]
      && b.themeGroup == data[6] && b.subtheme == data[7]
      && Ok(b.pieces) == GuardedInt(data[8]) && Ok(b.minifigs) == GuardedInt(data[9])
      && b.imageURL == data[14] && b.bricksetURL == data[15] && b.released == ReleasedOf(data[16])
      && b.priceUK == data[23] && b.priceUS == data[24] && b.priceCA == data[25] && b.priceEU == data[26]
      && b.rating == data[29]
  {
  }

  /** With an empty hash the element is left alone and the fields come from the fixed indices. */
  lemma NoHashKeepsElement(data: Leaves)
    ensures LeavesAfter(data, "") == data
    ensures DecodeSet(data, "") == DecodeFields(data)
  {
  }

  /**
   * With a hash, child 20 is gone: fields below 20 keep their index, the
   * prices and the rating come from children 24 to 27 and 30 of the original.
   */
  lemma HashShiftsFields(data: Leaves, userHash: string)
    requires userHash != ""
    requires DecodeSet(data, userHash).Ok?
    ensures var b := DecodeSet(data, userHash).value;
      && |data| >= 31
      && b.raw == LeavesAfter(data, userHash)
      && |b.raw| == |data| - 1
      && (forall i :: 0 <= i < UserHashIndex ==> b.raw[i] == data[i])
      && (forall i :: UserHashIndex <= i < |b.raw| ==> b.raw[i] == data[i + 1])
      && Ok(b.setID) == Int(data[0]) && b.number == data[1] && Ok(b.variant) == Int(data[2])
      && b.name == data[3] && b.year == data[4] && b.theme == data[5]
      && b.themeGroup == data[6] && b.subtheme == data[7]
      && Ok(b.pieces) == GuardedInt(data[8]) && Ok(b.minifigs) == GuardedInt(data[9])
      && b.imageURL == data[14] && b.bricksetURL == data[15] && b.released == ReleasedOf(data[16])
      && b.priceUK == data[24] && b.priceUS == data[25] && b.priceCA == data[26] && b.priceEU == data[27]
      && b.rating == data[30]
  {
    var s := RemoveAt(data, UserHashIndex);
    DecodeFieldsAt(s);
  }

  /** With a hash, decoding succeeds exactly when there are 31 children and the coerced ones are well formed. */
  lemma DecodeWithHashSucceeds(data: Leaves, userHash: string)
    requires userHash != ""
    ensures DecodeSet(data, userHash).Ok? <==>
      |data| >= 31 && IntOk(data[0]) && IntOk(data[2]) && GuardedIntOk(data[8]) && GuardedIntOk(data[9])
  {
    if UserHashIndex < |data| {
      var s := RemoveAt(data, UserHashIndex);
      DecodeFieldsSucceeds(s);
      assert s[0] == data[0] && s[2] == data[2] && s[8] == data[8] && s[9] == data[9];
    }
  }

  /** The present coerced children are well formed (so only a missing child can make decoding fail). */
  predicate PresentCoercionsOk(data: Leaves)
  {
    && (0 < |data| ==> IntOk(data[0]))
    && (2 < |data| ==> IntOk(data[2]))
    && (8 < |data| ==> GuardedIntOk(data[8]))
    && (9 < |data| ==> GuardedIntOk(data[9]))
  }

  /** Too few children always fail: with well-formed coerced children the failure is an IndexError. */
  lemma ShortElementFails(data: Leaves, userHash: string)
    requires |data| < RequiredLength(userHash)
    ensures DecodeSet(data, userHash).Err?
    ensures PresentCoercionsOk(data) ==> DecodeSet(data, userHash) == Err(IndexError)
  {
    if userHash == "" {
      DecodeFieldsSucceeds(data);
    } else {
      DecodeWithHashSucceeds(data, userHash);
      if UserHashIndex < |data| {
        var s := RemoveAt(data, UserHashIndex);
        assert s[0] == data[0] && s[2] == data[2] && s[8] == data[8] && s[9] == data[9];
      }
    }
  }

  /**
   * `released` looks at the lower-cased `str()` of the text: `true`/`1` give
   * True, `false`/`0`/`none` give False (so a missing text gives False), and
   * anything else is passed through as the present text.
   */
  lemma ReleasedTokenTable(t: Text)
    ensures ReleasedOf(t) == Flag(true) <==> Lower(Str(t)) in ["true", "1"]
    ensures ReleasedOf(t) == Flag(false) <==> Lower(Str(t)) in ["false", "0", "none"]
    ensures ReleasedOf(t).Passed? <==> Lower(Str(t)) !in ["true", "1", "false", "0", "none"]
    ensures ReleasedOf(t).Passed? ==> ReleasedOf(t).text == t && t.Some?
    ensures t.None? ==> ReleasedOf(t) == Flag(false)
  {
    LowerOfMissing();
  }

  /** The lookup ignores case: texts that differ only in case give the same flag. */
  lemma ReleasedIgnoresCase(s: string, s': string)
    requires Lower(s) == Lower(s')
    requires ReleasedOf(Some(s)).Flag?
    ensures ReleasedOf(Some(s')) == ReleasedOf(Some(s))
  {
  }

  /** `TRUE` is recognised; an unrecognised text such as `yes` comes back unchanged. */
  lemma ReleasedExamples()
    ensures ReleasedOf(Some("TRUE")) == Flag(true)
    ensures ReleasedOf(Some("None")) == Flag(false)
    ensures ReleasedOf(Some("yes")) == Passed(Some("yes"))
  {
    var l := Lower("TRUE");
    assert l[0] == 't' && l[1] == 'r' && l[2] == 'u' && l[3] == 'e';
    assert l == "true";
    LowerOfMissing();
    var y := Lower("yes");
    assert y[0] == 'y';
  }

  /** Children of a set record that neither the current nor the legacy decoder reads. */
  predicate Unread(i: nat)
  {
    (10 <= i <= 13) || (17 <= i <= 22) || (27 <= i <= 28) || i >= 30
  }

  /** `r` with the record's `raw` replaced. */
  function WithRaw(r: Result<Build>, raw: Leaves): Result<Build>
  {
    match r
    case Ok(b) => Ok(b.(raw := raw))
    case Err(e) => Err(e)
  }

  /** Elements 10–13, 17–22, 27–28 and from 30 on affect nothing but `raw`. */
  lemma UnreadChildrenIgnored(a: Leaves, b: Leaves)
    requires |a| == |b|
    requires forall i: nat :: i < |a| && !Unread(i) ==> a[i] == b[i]
    ensures DecodeFields(b) == WithRaw(DecodeFields(a), b)
  {
    if |a| >= 30 {
      assert a[0] == b[0] && a[1] == b[1] && a[2] == b[2] && a[3] == b[3] && a[4] == b[4];
      assert a[5] == b[5] && a[6] == b[6] && a[7] == b[7] && a[8] == b[8] && a[9] == b[9];
      assert a[14] == b[14] && a[15] == b[15] && a[16] == b[16];
      assert a[23] == b[23] && a[24] == b[24] && a[25] == b[25] && a[26] == b[26] && a[29] == b[29];
    }
  }
}
