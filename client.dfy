/**
 * The API gateway (brickfront/client.py): `Client.getSets` checks the sort
 * key, renders thirteen `key=value` pairs in a fixed order, sends one GET
 * request to the `getSets` endpoint, rejects any status but 200 with the
 * server's message, and otherwise decodes every child of the XML root as a
 * `Build`. The HTTP call and the XML parser are given to it as functions.
 */
module ApiClient {
  import opened Wrappers
  import opened Errors
  import opened PyText
  import opened Builds

  /** `Client._base` without its `{}?` template: `_base.format(x)` is Base + x + "?". */
  const Base: string := "http://brickset.com/api/v2.asmx/"

  /** The sort keys the code accepts (brickfront/client.py:40-42), case-sensitive. */
  const OrderTypes: seq<string> :=
    ["Number", "YearFrom", "Pieces", "Minifigs", "Rating",
     "UKRetailPrice", "USRetailPrice", "CARetailPrice", "EURetailPrice", "Theme"]

  const InvalidOrderMessage: string := "You have not specified a valid ordering type."

  /** The query keys in the order of the `values` dictionary. */
  const QueryKeys: seq<string> :=
    ["apiKey", "query", "theme", "subtheme", "setNumber", "year", "orderBy",
     "pageSize", "userHash", "owned", "wanted", "userName", "pageNumber"]

  /** Where the error text is cut: a backslash followed by `r`, not a carriage return. */
  const LineBreak: string := "\\r"

  predicate ValidOrderBy(orderBy: string) { orderBy in OrderTypes }

  /** A query value: `year` and `pageSize` may be a string or an integer. */
  datatype QueryValue = StrValue(s: string) | IntValue(n: int)

  /** `'{}'.format(v)`. */
  function Format(v: QueryValue): string
  {
    match v
    case StrValue(s) => s
    case IntValue(n) => ShowInt(n)
  }

  /** The `values` dictionary of `getSets`, in insertion order. */
  function QueryValues(apiKey: string, query: string, theme: string, subtheme: string,
                       setNumber: string, year: QueryValue, orderBy: string,
                       pageSize: QueryValue): seq<(string, QueryValue)>
  {
    [("apiKey", StrValue(apiKey)), ("query", StrValue(query)), ("theme", StrValue(theme)),
     ("subtheme", StrValue(subtheme)), ("setNumber", StrValue(setNumber)), ("year", year),
     ("orderBy", StrValue(orderBy)), ("pageSize", pageSize), ("userHash", StrValue("")),
     ("owned", StrValue("")), ("wanted", StrValue("")), ("userName", StrValue("")), ("pageNumber", IntValue(1))]
  }

  /** `'{}={}'.format(key, value)`. */
  function Pair(entry: (string, QueryValue)): string
  {
    entry.0 + "=" + Format(entry.1)
  }

  /** The list `sendValues` should hold once every entry is rendered. */
  function Rendered(values: seq<(string, QueryValue)>): seq<string>
  {
    seq(|values|, i requires 0 <= i < |values| => Pair(values[i]))
  }

  /** `self._getURL(endpoint, parts)`: the base, the endpoint, `?`, and the parts joined with `&`. */
  function GetURL(endpoint: string, parts: seq<string>): string
  {
    Base + endpoint + "?" + Join(parts, '&')
  }

  /** The URL `getSets` requests for these arguments. */
  function SetsURL(apiKey: string, query: string, theme: string, subtheme: string,
                   setNumber: string, year: QueryValue, orderBy: string,
                   pageSize: QueryValue): string
  {
    GetURL("getSets", Rendered(QueryValues(apiKey, query, theme, subtheme, setNumber, year, orderBy, pageSize)))
  }

  /** What the HTTP call returns: the status code and the body. */
  datatype Response = Response(status: int, text: string)

  /** `str(text).split('\\r')[0][2:]`. */
  function ErrorMessage(text: string): string
  {
    DropFirst(BeforeFirst(text, LineBreak), 2)
  }

  /** `[Build(i) for i in root]`: the first failing child's error escapes (`DecodeAllError`). */
  function DecodeAll(children: seq<Leaves>): (r: Result<seq<Build>>)
    ensures r.Ok? <==> forall i :: 0 <= i < |children| ==> DecodeSet(children[i], "").Ok?
    ensures r.Ok? ==> |r.value| == |children|
    ensures r.Ok? ==> forall i :: 0 <= i < |children| ==> Ok(r.value[i]) == DecodeSet(children[i], "")
    decreases |children|
  {
    if children == [] then Ok([])
    else
      var b :- DecodeSet(children[0], "");
      var rest :- DecodeAll(children[1..]);
      Ok([b] + rest)
  }

  /** The response handling of `getSets` once the request is sent. */
  function Receive(response: Response, parse: string -> Option<seq<Leaves>>): Result<seq<Build>>
  {
    if response.status != 200 then Err(InvalidRequest(ErrorMessage(response.text)))
    else match parse(response.text)
      case None => Err(ParseError)
      case Some(root) => DecodeAll(root)
  }

  class Client {
    const apiKey: string

    constructor (apiKey: string)
      ensures this.apiKey == apiKey
    {
      this.apiKey := apiKey;
    }

    /**
     * `getSets`: `get` stands for the HTTP GET and `parse` for reading the
     * children of the XML root of a body (None when it is not XML). An
     * invalid sort key is rejected before any request is formed.
     */
    method GetSets(query: string, theme: string, subtheme: string, setNumber: string,
                   year: QueryValue, orderBy: string, pageSize: QueryValue,
                   get: string -> Response, parse: string -> Option<seq<Leaves>>)
      returns (r: Result<seq<Build>>)
      ensures !ValidOrderBy(orderBy) ==> r == Err(InvalidOrderType(InvalidOrderMessage))
      ensures ValidOrderBy(orderBy) ==>
        r == Receive(get(SetsURL(apiKey, query, theme, subtheme, setNumber, year, orderBy, pageSize)), parse)
    {
      if orderBy !in OrderTypes {
        return Err(InvalidOrderType(InvalidOrderMessage));
      }
      var values := QueryValues(apiKey, query, theme, subtheme, setNumber, year, orderBy, pageSize);
      var sendValues: seq<string> := [];
      for i := 0 to |values|
        invariant |sendValues| == i
        invariant forall j :: 0 <= j < i ==> sendValues[j] == Pair(values[j])
      {
        sendValues := sendValues + [Pair(values[i])];
      }
      assert sendValues == Rendered(values);
      var returned := get(GetURL("getSets", sendValues));
      if returned.status != 200 {
        return Err(InvalidRequest(ErrorMessage(returned.text)));
      }
      match parse(returned.text)
      case None =>
        r := Err(ParseError);
      case Some(root) =>
        r := DecodeAll(root);
    }
  }

  // ------------------------------------------------------------- properties

  /** The default sort key is accepted; names the documentation offers beyond the ten are not. */
  lemma OrderByChoices()
    ensures ValidOrderBy("Number")
    ensures |OrderTypes| == 10
    ensures !ValidOrderBy("Subtheme") && !ValidOrderBy("Name") && !ValidOrderBy("Random")
    ensures !ValidOrderBy("NameDESC") && !ValidOrderBy("NumberDESC") && !ValidOrderBy("number")
  {
  }

  /**
   * The query is thirteen `key=value` fields in the fixed key order; the
   * caller's values appear verbatim, the user fields are empty and the page is 1.
   */
  lemma QueryLayout(apiKey: string, query: string, theme: string, subtheme: string,
                    setNumber: string, year: QueryValue, orderBy: string, pageSize: QueryValue)
    ensures var f := Rendered(QueryValues(apiKey, query, theme, subtheme, setNumber, year, orderBy, pageSize));
      && |f| == 13
      && f[0] == "apiKey=" + apiKey && f[1] == "query=" + query && f[2] == "theme=" + theme
      && f[3] == "subtheme=" + subtheme && f[4] == "setNumber=" + setNumber
      && f[5] == "year=" + Format(year) && f[6] == "orderBy=" + orderBy
      && f[7] == "pageSize=" + Format(pageSize)
      && f[8] == "userHash=" && f[9] == "owned=" && f[10] == "wanted=" && f[11] == "userName="
      && f[12] == "pageNumber=1"
  {
    var v := QueryValues(apiKey, query, theme, subtheme, setNumber, year, orderBy, pageSize);
    var f := Rendered(v);
    assert ShowInt(1) == "1";
    forall i | 0 <= i < 13 ensures f[i] == v[i].0 + "=" + Format(v[i].1) { }
    assert f[0] == "apiKey" + "=" + apiKey;
    assert f[12] == "pageNumber" + "=" + "1";
  }

  /** Field i of the query is the i-th key, `=`, and the i-th value. */
  lemma QueryKeyOrder(apiKey: string, query: string, theme: string, subtheme: string,
                      setNumber: string, year: QueryValue, orderBy: string, pageSize: QueryValue)
    ensures var v := QueryValues(apiKey, query, theme, subtheme, setNumber, year, orderBy, pageSize);
      var f := Rendered(v);
      |f| == |QueryKeys| &&
      forall i :: 0 <= i < |f| ==> f[i] == QueryKeys[i] + "=" + Format(v[i].1)
  {
  }

  /** The URL is the endpoint address followed by the query. */
  lemma URLLayout(apiKey: string, query: string, theme: string, subtheme: string,
                  setNumber: string, year: QueryValue, orderBy: string, pageSize: QueryValue)
    ensures var url := SetsURL(apiKey, query, theme, subtheme, setNumber, year, orderBy, pageSize);
      var prefix := "http://brickset.com/api/v2.asmx/getSets?";
      && url[..|prefix|] == prefix
      && url[|prefix|..] == Join(Rendered(QueryValues(apiKey, query, theme, subtheme, setNumber, year, orderBy, pageSize)), '&')
  {
  }

  /**
   * Values are inserted without escaping: the server sees exactly the thirteen
   * fields when no value holds `&`, and one more field per `&` in the values.
   */
  lemma QueryFields(apiKey: string, query: string, theme: string, subtheme: string,
                    setNumber: string, year: QueryValue, orderBy: string, pageSize: QueryValue)
    ensures var f := Rendered(QueryValues(apiKey, query, theme, subtheme, setNumber, year, orderBy, pageSize));
      |Split(Join(f, '&'), '&')| == 13 + CountAll('&', f)
    ensures var f := Rendered(QueryValues(apiKey, query, theme, subtheme, setNumber, year, orderBy, pageSize));
      (forall i :: 0 <= i < |f| ==> '&' !in f[i]) ==> Split(Join(f, '&'), '&') == f
  {
    var f := Rendered(QueryValues(apiKey, query, theme, subtheme, setNumber, year, orderBy, pageSize));
    QueryLayout(apiKey, query, theme, subtheme, setNumber, year, orderBy, pageSize);
    SplitLength(Join(f, '&'), '&');
    JoinCount(f, '&');
    if forall i :: 0 <= i < |f| ==> '&' !in f[i] {
      SplitJoin(f, '&');
    }
  }

  /** A search term holding `&` adds a field the client never meant to send. */
  lemma QueryInjection(apiKey: string, query: string, theme: string, subtheme: string,
                       setNumber: string, year: QueryValue, orderBy: string, pageSize: QueryValue)
    requires '&' in query
    ensures var f := Rendered(QueryValues(apiKey, query, theme, subtheme, setNumber, year, orderBy, pageSize));
      |Split(Join(f, '&'), '&')| > 13
  {
    var f := Rendered(QueryValues(apiKey, query, theme, subtheme, setNumber, year, orderBy, pageSize));
    QueryFields(apiKey, query, theme, subtheme, setNumber, year, orderBy, pageSize);
    QueryLayout(apiKey, query, theme, subtheme, setNumber, year, orderBy, pageSize);
    CountAppend('&', "query=", query);
    CountPositive('&', query);
    CountAllAtLeast('&', f, 1);
    assert Count('&', f[1]) >= 1;
  }

  /**
   * The message of a failed request: the body before the first backslash-`r`,
   * with its first two characters dropped. It never holds a backslash-`r`, and
   * when the body does not start with one it is the text that follows the two
   * dropped characters, running up to the first backslash-`r` or to the end.
   */
  lemma ErrorMessageDelimited(text: string)
    ensures forall k: nat :: !OccursAt(ErrorMessage(text), LineBreak, k)
    ensures |text| >= 2 && !OccursAt(text, LineBreak, 0) && !OccursAt(text, LineBreak, 1) ==>
      var m := ErrorMessage(text);
      2 + |m| <= |text| && text[2..2 + |m|] == m && (2 + |m| == |text| || OccursAt(text, LineBreak, 2 + |m|))
  {
    var line := BeforeFirst(text, LineBreak);
    var m := ErrorMessage(text);
    if |line| > 2 {
      assert m == line[2..] == text[2..|line|];
      SliceOccurrences(text, LineBreak, 2, |line|);
    }
    if |text| >= 2 && !OccursAt(text, LineBreak, 0) && !OccursAt(text, LineBreak, 1) {
      assert |line| >= 2;
      assert m == line[2..] == text[2..|line|];
    }
  }

  /** A real carriage return does not end the message. */
  lemma ErrorMessageKeepsCarriageReturn()
    ensures ErrorMessage("E:bad key\r\n") == "bad key\r\n"
  {
    var a := "E:bad key\r\n";
    assert '\\' !in a;
    OccurrenceHeads(a, LineBreak);
    BeforeFirstNone(a, LineBreak);
  }

  /** The two-character sequence backslash, `r` does. */
  lemma ErrorMessageStopsAtBackslashR()
    ensures ErrorMessage("E:bad key\\r\\n") == "bad key"
    ensures ErrorMessage("E") == ""
  {
    assert "E:bad key\\r\\n" == "E:bad key" + LineBreak + "\\n";
    assert '\\' !in "E:bad key";
    BeforeFirstOfConcat("E:bad key", LineBreak, "\\n");
  }

  /** A status other than 200 always fails with the extracted message, before any parsing. */
  lemma ReceiveStatus(response: Response, parse: string -> Option<seq<Leaves>>)
    ensures response.status != 200 ==> Receive(response, parse) == Err(InvalidRequest(ErrorMessage(response.text)))
    ensures response.status == 200 && parse(response.text) == Some([]) ==> Receive(response, parse) == Ok([])
    ensures Receive(response, parse).Ok? ==> response.status == 200
  {
  }

  /** On success there is one record per child of the root, in document order, each decoded without a hash. */
  lemma ReceiveOneBuildPerChild(response: Response, parse: string -> Option<seq<Leaves>>)
    requires Receive(response, parse).Ok?
    ensures response.status == 200 && parse(response.text).Some?
    ensures var kids := parse(response.text).value;
      var builds := Receive(response, parse).value;
      |builds| == |kids| &&
      forall i :: 0 <= i < |kids| ==> builds[i].raw == kids[i] && Ok(builds[i]) == DecodeSet(kids[i], "")
  {
    var kids := parse(response.text).value;
    var builds := Receive(response, parse).value;
    forall i | 0 <= i < |kids| ensures builds[i].raw == kids[i] {
      DecodeFieldsAt(kids[i]);
    }
  }

  /** A value with no `&` in its rendered form: any integer, or a string without `&`. */
  predicate PlainValue(v: QueryValue)
  {
    match v
    case StrValue(s) => '&' !in s
    case IntValue(_) => true
  }

  lemma FormatPlain(v: QueryValue)
    requires PlainValue(v)
    ensures '&' !in Format(v)
  {
    if v.IntValue? {
      ShowIntChars(v.n);
    }
  }

  /** The server reads back exactly the thirteen fields when no argument holds `&`. */
  lemma QueryRoundTrip(apiKey: string, query: string, theme: string, subtheme: string,
                       setNumber: string, year: QueryValue, orderBy: string, pageSize: QueryValue)
    requires '&' !in apiKey && '&' !in query && '&' !in theme && '&' !in subtheme
    requires '&' !in setNumber && '&' !in orderBy
    requires PlainValue(year) && PlainValue(pageSize)
    ensures var f := Rendered(QueryValues(apiKey, query, theme, subtheme, setNumber, year, orderBy, pageSize));
      Split(Join(f, '&'), '&') == f
  {
    var f := Rendered(QueryValues(apiKey, query, theme, subtheme, setNumber, year, orderBy, pageSize));
    QueryLayout(apiKey, query, theme, subtheme, setNumber, year, orderBy, pageSize);
    FormatPlain(year);
    FormatPlain(pageSize);
    assert forall i :: 0 <= i < |f| ==> '&' !in f[i] by {
      assert '&' !in f[0] && '&' !in f[1] && '&' !in f[2] && '&' !in f[3] && '&' !in f[4];
      assert '&' !in f[5] && '&' !in f[6] && '&' !in f[7];
      assert '&' !in f[8] && '&' !in f[9] && '&' !in f[10] && '&' !in f[11] && '&' !in f[12];
    }
    SplitJoin(f, '&');
  }

  /**
   * `getSets()` with every keyword left at its default (brickfront/client.py:23):
   * the sort key passes, and the query sends empty search fields,
   * `year=`, `orderBy=Number` and `pageSize=20`.
   */
  lemma DefaultCall(apiKey: string)
    ensures ValidOrderBy("Number")
    ensures var f := Rendered(QueryValues(apiKey, "", "", "", "", StrValue(""), "Number", IntValue(20)));
      && f[1] == "query=" && f[2] == "theme=" && f[3] == "subtheme=" && f[4] == "setNumber="
      && f[5] == "year=" && f[6] == "orderBy=Number" && f[7] == "pageSize=20"
  {
    assert ShowInt(20) == "20";
    QueryLayout(apiKey, "", "", "", "", StrValue(""), "Number", IntValue(20));
  }

  /**
   * A failed decode of the root reports the error of the first child that
   * fails; every child before it decodes.
   */
  lemma {:induction false} DecodeAllError(children: seq<Leaves>)
    requires DecodeAll(children).Err?
    ensures exists k :: && 0 <= k < |children| && DecodeSet(children[k], "").Err?
                        && DecodeAll(children).error == DecodeSet(children[k], "").error
                        && (forall j :: 0 <= j < k ==> DecodeSet(children[j], "").Ok?)
    decreases |children|
  {
    if DecodeSet(children[0], "").Err? {
      assert 0 <= 0 < |children| && DecodeSet(children[0], "").Err?;
    } else {
      var tail := children[1..];
      DecodeAllError(tail);
      var k :| 0 <= k < |tail| && DecodeSet(tail[k], "").Err?
        && DecodeAll(tail).error == DecodeSet(tail[k], "").error
        && (forall j :: 0 <= j < k ==> DecodeSet(tail[j], "").Ok?);
      assert children[k + 1] == tail[k];
      forall j | 0 <= j < k + 1 ensures DecodeSet(children[j], "").Ok? {
        if j > 0 { assert children[j] == tail[j - 1]; }
      }
    }
  }
}
