/**
 * The legacy set record (build.py at the repository root): every field is the
 * raw text of a fixed child, and `released` goes through a strict two-token
 * table that raises KeyError on anything else.
 */
module LegacyBuilds {
  import opened Wrappers
  import opened Errors
  import opened PyText
  import Builds

  datatype LegacyBuild = LegacyBuild(
    raw: Leaves,
    setID: Text,
    number: Text,
    variant: Text,
    name: Text,
    year: Text,
    theme: Text,
    themeGroup: Text,
    subtheme: Text,
    pieces: Text,
    minifigs: Text,
    imageURL: Text,
    bricksetURL: Text,
    released: bool,
    priceUK: Text,
    priceUS: Text,
    priceCA: Text,
    priceEU: Text,
    rating: Text)

  /** `{'true': True, '0': False}`, looked up with the text itself as key. */
  const StrictTokens: map<string, bool> := map["true" := true, "0" := false]

  function StrictReleased(t: Text): Result<bool>
  {
    if t.Some? && t.value in StrictTokens then Ok(StrictTokens[t.value]) else Err(KeyError)
  }

  /** `Build(data)` of build.py, reading the children in source order. */
  function DecodeLegacy(data: Leaves): Result<LegacyBuild>
  {
    var setID :- At(data, 0);
    var number :- At(data, 1);
    var variant :- At(data, 2);
    var name :- At(data, 3);
    var year :- At(data, 4);
    var theme :- At(data, 5);
    var themeGroup :- At(data, 6);
    var subtheme :- At(data, 7);
    var pieces :- At(data, 8);
    var minifigs :- At(data, 9);
    var imageURL :- At(data, 14);
    var bricksetURL :- At(data, 15);
    var t16 :- At(data, 16);
    var released :- StrictReleased(t16);
    var priceUK :- At(data, 23);
    var priceUS :- At(data, 24);
    var priceCA :- At(data, 25);
    var priceEU :- At(data, 26);
    var rating :- At(data, 29);
    Ok(LegacyBuild(data, setID, number, variant, name, year, theme, themeGroup, subtheme,
                   pieces, minifigs, imageURL, bricksetURL, released,
                   priceUK, priceUS, priceCA, priceEU, rating))
  }

  // ------------------------------------------------------------- properties

  /** Only the exact texts `true` and `0` are accepted; everything else raises KeyError. */
  lemma StrictReleasedTable(t: Text)
    ensures StrictReleased(t) == Ok(true) <==> t == Some("true")
    ensures StrictReleased(t) == Ok(false) <==> t == Some("0")
    ensures StrictReleased(t).Err? <==> t != Some("true") && t != Some("0")
    ensures StrictReleased(t).Err? ==> StrictReleased(t).error == KeyError
  {
  }

  /** `false`, `1`, `TRUE` and a missing text are all rejected. */
  lemma StrictReleasedRejects()
    ensures StrictReleased(Some("false")) == Err(KeyError)
    ensures StrictReleased(Some("1")) == Err(KeyError)
    ensures StrictReleased(Some("TRUE")) == Err(KeyError)
    ensures StrictReleased(None) == Err(KeyError)
  {
  }

  /** Decoding succeeds exactly on 30 or more children whose child 16 is `true` or `0`. */
  lemma LegacySucceeds(data: Leaves)
    ensures DecodeLegacy(data).Ok? <==>
      |data| >= 30 && (data[16] == Some("true") || data[16] == Some("0"))
  {
  }

  /**
   * The error of a failed decode: up to 16 children it is an IndexError; with
   * 17 to 29 it is the KeyError of `released` if that text is bad, else an IndexError.
   */
  lemma LegacyErrors(data: Leaves)
    ensures |data| <= 16 ==> DecodeLegacy(data) == Err(IndexError)
    ensures 16 < |data| && StrictReleased(data[16]).Err? ==> DecodeLegacy(data) == Err(KeyError)
    ensures 16 < |data| < 30 && StrictReleased(data[16]).Ok? ==> DecodeLegacy(data) == Err(IndexError)
  {
  }

  /** Every field is the unconverted text of its fixed child; `raw` is the input itself. */
  lemma LegacyFieldsAt(data: Leaves)
    requires DecodeLegacy(data).Ok?
    ensures var b := DecodeLegacy(data).value;
      && |data| >= 30
      && b.raw == data
      && b.setID == data[0] && b.number == data[1] && b.variant == data[2] && b.name == data[3]
      && b.year == data[4] && b.theme == data[5] && b.themeGroup == data[6] && b.subtheme == data[7]
      && b.pieces == data[8] && b.minifigs == data[9] && b.imageURL == data[14] && b.bricksetURL == data[15]
      && b.released == (data[16] == Some("true"))
      && b.priceUK == data[23] && b.priceUS == data[24] && b.priceCA == data[25] && b.priceEU == data[26]
      && b.rating == data[29]
  {
  }

  function WithRaw(r: Result<LegacyBuild>, raw: Leaves): Result<LegacyBuild>
  {
    match r
    case Ok(b) => Ok(b.(raw := raw))
    case Err(e) => Err(e)
  }

  /** Elements 10–13, 17–22, 27–28 and from 30 on affect nothing but `raw`. */
  lemma LegacyUnreadIgnored(a: Leaves, b: Leaves)
    requires |a| == |b|
    requires forall i: nat :: i < |a| && !Builds.Unread(i) ==> a[i] == b[i]
    ensures DecodeLegacy(b) == WithRaw(DecodeLegacy(a), b)
  {
    if |a| >= 30 {
      assert a[0] == b[0] && a[1] == b[1] && a[2] == b[2] && a[3] == b[3] && a[4] == b[4];
      assert a[5] == b[5] && a[6] == b[6] && a[7] == b[7] && a[8] == b[8] && a[9] == b[9];
      assert a[14] == b[14] && a[15] == b[15] && a[16] == b[16];
      assert a[23] == b[23] && a[24] == b[24] && a[25] == b[25] && a[26] == b[26] && a[29] == b[29];
    } else if |a| > 16 {
      assert a[16] == b[16];
    }
  }
}
