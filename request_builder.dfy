/**
 * The request builder (`src/request_builder.rs`): the scheme choice for a URL
 * given without one, the query-string join, the header replace-merge, the
 * rule that a raw body and body values exclude each other, and the HTTP
 * version.
 *
 * The libraries it leans on are not part of this model and come in as
 * parameters: the `form_urlencoded` escaping of one key or value, and
 * `json_builder::build`, which turns body values into a JSON document.
 */
module RequestBuilding {
  import opened Base
  import opened UrlBuilding
  import Parser

  // ---------------------------------------------------------------------------
  // get_scheme
  // ---------------------------------------------------------------------------

  /** The scheme a session may remember for an authority. */
  datatype Scheme = Http | Https

  /** The scheme's name in a URL. */
  function SchemeName(s: Scheme): string
  {
    match s
    case Http => "http"
    case Https => "https"
  }

  /**
   * The scheme for a URL typed without one: the session's when it remembers
   * one, otherwise `http` for the configured plain-HTTP hostnames and `https`
   * for every other host.
   */
  function GetScheme(hostname: string, sessionScheme: Option<Scheme>, httpHostnames: seq<string>): (r: string)
    ensures r == "http" || r == "https"
    ensures sessionScheme.Some? ==> r == SchemeName(sessionScheme.value)
    ensures sessionScheme.None? ==> (r == "http" <==> hostname in httpHostnames)
  {
    if sessionScheme.Some? then SchemeName(sessionScheme.value)
    else if hostname in httpHostnames then "http"
    else "https"
  }

  // ---------------------------------------------------------------------------
  // Joining and splitting at a separator
  // ---------------------------------------------------------------------------

  /** The pieces of `s` between the occurrences of `c`. */
  function Split(s: string, c: char): (r: seq<string>)
    ensures r != []
    decreases |s|
  {
    var (before, after) := SplitFirst(s, c);
    match after
    case None => [before]
    case Some(rest) => [before] + Split(rest, c)
  }

  /** The pieces with `c` between each two of them. */
  function Join(pieces: seq<string>, c: char): string
  {
    if |pieces| == 0 then ""
    else if |pieces| == 1 then pieces[0]
    else Join(pieces[..|pieces| - 1], c) + [c] + pieces[|pieces| - 1]
  }

  /** Splitting at a separator splits each side of it separately. */
  lemma {:induction false} SplitAppend(x: string, c: char, y: string)
    ensures Split(x + [c] + y, c) == Split(x, c) + Split(y, c)
    decreases |x|
  {
    var (before, after) := SplitFirst(x, c);
    match after
    case None =>
      SplitFirstAt(before, c, y);
    case Some(rest) =>
      assert x + [c] + y == before + [c] + (rest + [c] + y);
      SplitFirstAt(before, c, rest + [c] + y);
      SplitAppend(rest, c, y);
  }

  /** Pieces without the separator are recovered from their join. */
  lemma {:induction false} SplitJoin(pieces: seq<string>, c: char)
    requires pieces != []
    requires forall i :: 0 <= i < |pieces| ==> c !in pieces[i]
    ensures Split(Join(pieces, c), c) == pieces
    decreases |pieces|
  {
    var last := pieces[|pieces| - 1];
    SplitFirstAbsent(last, c);
    if |pieces| > 1 {
      var init := pieces[..|pieces| - 1];
      SplitJoin(init, c);
      SplitAppend(Join(init, c), c, last);
      assert init + [last] == pieces;
    }
  }

  // ---------------------------------------------------------------------------
  // add_query
  // ---------------------------------------------------------------------------

  /** One query pair as the URL-encoded serializer writes it: `key=value`, each escaped. */
  function PairText(pair: (string, string), escape: string -> string): string
  {
    escape(pair.0) + "=" + escape(pair.1)
  }

  /** Every pair, written out. */
  function PairTexts(pairs: seq<(string, string)>, escape: string -> string): (r: seq<string>)
    ensures |r| == |pairs|
  {
    seq(|pairs|, i requires 0 <= i < |pairs| => PairText(pairs[i], escape))
  }

  /**
   * The URL-encoded serializer started on an empty string: each pair is
   * appended, after a `&` whenever the output is not empty any more.
   */
  method EncodePairs(pairs: seq<(string, string)>, escape: string -> string) returns (out: string)
    ensures out == Join(PairTexts(pairs, escape), '&')
  {
    out := "";
    var i := 0;
    while i < |pairs|
      invariant 0 <= i <= |pairs|
      invariant out == Join(PairTexts(pairs[..i], escape), '&')
      invariant i == 0 <==> out == ""
    {
      if |out| > 0 {
        out := out + "&";
      }
      out := out + escape(pairs[i].0) + "=" + escape(pairs[i].1);
      assert pairs[..i + 1][..i] == pairs[..i];
      var texts := PairTexts(pairs[..i + 1], escape);
      assert texts[..i] == PairTexts(pairs[..i], escape);
      assert texts[i] == PairText(pairs[i], escape);
      i := i + 1;
    }
    assert pairs[..i] == pairs;
  }

  /** An escaping that never writes `&` nor `=`, as URL encoding never does. */
  ghost predicate EscapesSeparators(escape: string -> string)
  {
    forall s :: '&' !in escape(s) && '=' !in escape(s)
  }

  /**
   * The query after adding pairs: unchanged when there are none; otherwise
   * the encoded pairs, after the old query and a `&` when the old query is
   * present and not empty.
   */
  function QueryAfter(query: Option<string>, pairs: seq<(string, string)>, escape: string -> string): Option<string>
  {
    if pairs == [] then query
    else
      var encoded := Join(PairTexts(pairs, escape), '&');
      match query
      case Some(q) => if q != "" then Some(q + "&" + encoded) else Some(encoded)
      case None => Some(encoded)
  }

  /** The `&`-separated parts of a query: none when it is absent or empty. */
  function QueryParts(query: Option<string>): seq<string>
  {
    match query
    case Some(q) => if q != "" then Split(q, '&') else []
    case None => []
  }

  /**
   * Adding pairs keeps every earlier part of the query, in order, and
   * appends one `key=value` part per pair, in order; each part splits at
   * its first `=` into the escaped key and the escaped value.
   */
  lemma QueryAppendsPairs(query: Option<string>, pairs: seq<(string, string)>, escape: string -> string)
    requires pairs != []
    requires EscapesSeparators(escape)
    ensures QueryAfter(query, pairs, escape).Some?
    ensures Split(QueryAfter(query, pairs, escape).value, '&') == QueryParts(query) + PairTexts(pairs, escape)
    ensures forall i :: 0 <= i < |pairs| ==>
      SplitFirst(PairTexts(pairs, escape)[i], '=') == (escape(pairs[i].0), Some(escape(pairs[i].1)))
  {
    var texts := PairTexts(pairs, escape);
    forall i | 0 <= i < |pairs|
      ensures '&' !in texts[i]
      ensures SplitFirst(texts[i], '=') == (escape(pairs[i].0), Some(escape(pairs[i].1)))
    {
      var k, v := escape(pairs[i].0), escape(pairs[i].1);
      assert texts[i] == k + ['='] + v;
      SplitFirstAt(k, '=', v);
    }
    SplitJoin(texts, '&');
    var encoded := Join(texts, '&');
    if query.Some? && query.value != "" {
      assert query.value + "&" + encoded == query.value + ['&'] + encoded;
      SplitAppend(query.value, '&', encoded);
    }
  }

  // ---------------------------------------------------------------------------
  // replace_headers
  // ---------------------------------------------------------------------------

  /** A header map: each name with its values, in order. Names are already normalised. */
  type Headers = map<string, seq<string>>

  /**
   * What consuming a header map yields: the first value of a name comes with
   * the name, each further value of the same name comes without one.
   */
  type HeaderItem = (Option<string>, string)

  /**
   * The items replayed onto `m`, where `prev` is the last name seen: a named
   * item replaces all values of its name by itself, an unnamed one appends
   * to the last name. (An unnamed item with no name before it is skipped;
   * a header map never yields one.)
   */
  function Replay(m: Headers, prev: Option<string>, items: seq<HeaderItem>): Headers
    decreases |items|
  {
    if items == [] then m
    else
      match items[0].0
      case Some(name) => Replay(m[name := [items[0].1]], Some(name), items[1..])
      case None =>
        if prev.Some? && prev.value in m then
          Replay(m[prev.value := m[prev.value] + [items[0].1]], prev, items[1..])
        else Replay(m, prev, items[1..])
  }

  /**
   * `replace_headers`: the items of `src` applied to `dst` one at a time,
   * with the entry of the last name kept to append further values to.
   */
  method ReplaceHeaders(dst: Headers, src: seq<HeaderItem>) returns (r: Headers)
    requires src == [] || src[0].0.Some?
    ensures r == Replay(dst, None, src)
  {
    r := dst;
    var prev: Option<string> := None;
    var i := 0;
    while i < |src|
      invariant 0 <= i <= |src|
      invariant i > 0 ==> prev.Some? && prev.value in r
      invariant Replay(dst, None, src) == Replay(r, prev, src[i..])
    {
      assert src[i..][0] == src[i] && src[i..][1..] == src[i + 1..];
      var (key, value) := src[i];
      match key {
        case Some(name) =>
          r := r[name := [value]];
          prev := Some(name);
        case None =>
          if prev.None? {
            assert false;
          }
          r := r[prev.value := r[prev.value] + [value]];
      }
      i := i + 1;
    }
  }

  /** The values of one name as a header map yields them. */
  function GroupItems(name: string, values: seq<string>): (r: seq<HeaderItem>)
    ensures |r| == |values|
  {
    if values == [] then []
    else [(Some(name), values[0])] + seq(|values| - 1, i requires 0 <= i < |values| - 1 => (None, values[i + 1]))
  }

  /** A header map, given as its names with their values in iteration order, as it is consumed. */
  function Stream(groups: seq<(string, seq<string>)>): seq<HeaderItem>
  {
    if groups == [] then [] else GroupItems(groups[0].0, groups[0].1) + Stream(groups[1..])
  }

  /** The map the groups stand for. */
  function ToMap(groups: seq<(string, seq<string>)>): Headers
  {
    if groups == [] then map[] else ToMap(groups[1..])[groups[0].0 := groups[0].1]
  }

  /** Groups that are a header map: every name has a value and no name comes twice. */
  predicate IsHeaderMap(groups: seq<(string, seq<string>)>)
  {
    && (forall i :: 0 <= i < |groups| ==> groups[i].1 != [])
    && (forall i, j :: 0 <= i < j < |groups| ==> groups[i].0 != groups[j].0)
  }

  /** Unnamed items append, in order, to the last name's values. */
  lemma {:induction false} ReplayAppends(m: Headers, name: string, more: seq<string>, tail: seq<HeaderItem>)
    requires name in m
    ensures Replay(m, Some(name), seq(|more|, i requires 0 <= i < |more| => (None, more[i])) + tail)
         == Replay(m[name := m[name] + more], Some(name), tail)
    decreases |more|
  {
    var items := seq(|more|, i requires 0 <= i < |more| => (None, more[i])) + tail;
    if more == [] {
      assert items == tail;
      assert m[name] + more == m[name];
      assert m[name := m[name] + more] == m;
    } else {
      var m' := m[name := m[name] + [more[0]]];
      var rest := seq(|more| - 1, i requires 0 <= i < |more| - 1 => (None, more[1..][i]));
      assert items[0] == (None, more[0]);
      assert items[1..] == rest + tail;
      ReplayAppends(m', name, more[1..], tail);
      assert m'[name] + more[1..] == m[name] + more;
      assert m'[name := m'[name] + more[1..]] == m[name := m[name] + more];
    }
  }

  /** The items of one name set that name's values to exactly its values. */
  lemma ReplayGroup(m: Headers, prev: Option<string>, name: string, values: seq<string>, tail: seq<HeaderItem>)
    requires values != []
    ensures Replay(m, prev, GroupItems(name, values) + tail) == Replay(m[name := values], Some(name), tail)
  {
    var more := values[1..];
    var nones := seq(|more|, i requires 0 <= i < |more| => (None, more[i]));
    assert GroupItems(name, values) == [(Some(name), values[0])] + nones;
    assert GroupItems(name, values) + tail == [(Some(name), values[0])] + (nones + tail);
    ReplayNamed(m, prev, name, values[0], nones + tail);
    var m1 := m[name := [values[0]]];
    ReplayAppends(m1, name, more, tail);
    assert m1[name] + more == values;
    assert m1[name := m1[name] + more] == m[name := values];
  }

  /** A named item replaces all values of its name by its own. */
  lemma ReplayNamed(m: Headers, prev: Option<string>, name: string, value: string, rest: seq<HeaderItem>)
    ensures Replay(m, prev, [(Some(name), value)] + rest) == Replay(m[name := [value]], Some(name), rest)
  {
    var items := [(Some(name), value)] + rest;
    assert items[0] == (Some(name), value);
    assert items[1..] == rest;
  }

  /** After a header map's items, the last name seen no longer matters. */
  lemma PrevForgotten(m: Headers, prev: Option<string>, groups: seq<(string, seq<string>)>)
    requires IsHeaderMap(groups)
    ensures Replay(m, prev, Stream(groups)) == Replay(m, None, Stream(groups))
  {
    if groups != [] {
      assert Stream(groups)[0] == (Some(groups[0].0), groups[0].1[0]);
    }
  }

  /** A name that no group has is not in the groups' map. */
  lemma {:induction false} NotInToMap(name: string, groups: seq<(string, seq<string>)>)
    requires forall i :: 0 <= i < |groups| ==> groups[i].0 != name
    ensures name !in ToMap(groups)
    decreases |groups|
  {
    if groups != [] {
      NotInToMap(name, groups[1..]);
    }
  }

  /** The tail of a header map is a header map. */
  lemma HeaderMapTail(groups: seq<(string, seq<string>)>)
    requires IsHeaderMap(groups) && groups != []
    ensures IsHeaderMap(groups[1..])
    ensures forall i :: 0 <= i < |groups[1..]| ==> groups[1..][i].0 != groups[0].0
  {
    forall i | 0 <= i < |groups[1..]|
      ensures groups[1..][i].0 != groups[0].0
    {
      assert groups[1..][i] == groups[i + 1];
    }
  }

  /**
   * Replaying a header map onto `dst` is the map union `dst + src`: every
   * name of `src` gets exactly `src`'s values, in order, and every other
   * name keeps its values in `dst`.
   */
  lemma {:induction false} ReplaceHeadersMerges(dst: Headers, groups: seq<(string, seq<string>)>)
    requires IsHeaderMap(groups)
    ensures Replay(dst, None, Stream(groups)) == dst + ToMap(groups)
    decreases |groups|
  {
    if groups == [] {
      assert dst + ToMap(groups) == dst;
    } else {
      var (name, values) := groups[0];
      var rest := groups[1..];
      HeaderMapTail(groups);
      ReplayGroup(dst, None, name, values, Stream(rest));
      PrevForgotten(dst[name := values], Some(name), rest);
      ReplaceHeadersMerges(dst[name := values], rest);
      NotInToMap(name, rest);
      assert dst[name := values] + ToMap(rest) == dst + ToMap(rest)[name := values];
    }
  }

  /** Each name of a header map is found in its map with its values. */
  lemma {:induction false} ToMapAt(groups: seq<(string, seq<string>)>, i: nat)
    requires IsHeaderMap(groups) && i < |groups|
    ensures groups[i].0 in ToMap(groups) && ToMap(groups)[groups[i].0] == groups[i].1
    decreases i
  {
    if i > 0 {
      HeaderMapTail(groups);
      assert groups[1..][i - 1] == groups[i];
      ToMapAt(groups[1..], i - 1);
    }
  }

  /** After the merge a name of `src` has exactly `src`'s values, in order. */
  lemma SourceValuesWin(dst: Headers, groups: seq<(string, seq<string>)>, i: nat)
    requires IsHeaderMap(groups) && i < |groups|
    ensures groups[i].0 in Replay(dst, None, Stream(groups))
    ensures Replay(dst, None, Stream(groups))[groups[i].0] == groups[i].1
  {
    ReplaceHeadersMerges(dst, groups);
    ToMapAt(groups, i);
  }

  /** After the merge a name that `src` lacks has the values it had in `dst`, or stays absent. */
  lemma OtherNamesKept(dst: Headers, groups: seq<(string, seq<string>)>, name: string)
    requires IsHeaderMap(groups)
    requires forall i :: 0 <= i < |groups| ==> groups[i].0 != name
    ensures name in Replay(dst, None, Stream(groups)) <==> name in dst
    ensures name in dst ==> Replay(dst, None, Stream(groups))[name] == dst[name]
  {
    ReplaceHeadersMerges(dst, groups);
    NotInToMap(name, groups);
  }

  // ---------------------------------------------------------------------------
  // add_data
  // ---------------------------------------------------------------------------

  /** Why adding a body can fail. */
  datatype DataError =
    | BothDataAndValues  // "Cannot specify both data and body values"
    | BuildFailed        // building the JSON document from the values failed

  /**
   * The body after adding raw data or body values: both at once is an error;
   * data replaces the body; values replace it with the document `build`
   * makes of them, or fail when it fails; neither leaves it as it was.
   */
  function BodyAfter(body: Option<string>, values: seq<Parser.BodyValue>, data: Option<string>,
                     build: seq<Parser.BodyValue> -> Option<string>): (r: Result<Option<string>, DataError>)
    ensures data.Some? && values != [] ==> r == Err(BothDataAndValues)
    ensures r.Err? <==> values != [] && (data.Some? || build(values).None?)
    ensures r.Ok? && data.Some? ==> r.value == data
    ensures r.Ok? && values != [] ==> r.value == build(values)
    ensures data.None? && values == [] ==> r == Ok(body)
  {
    if data.Some? && values != [] then Err(BothDataAndValues)
    else if values != [] then
      match build(values)
      case None => Err(BuildFailed)
      case Some(document) => Ok(Some(document))
    else if data.Some? then Ok(data)
    else Ok(body)
  }

  // ---------------------------------------------------------------------------
  // The request under construction
  // ---------------------------------------------------------------------------

  /** The HTTP versions a request can be sent with. */
  datatype Version = Http09 | Http10 | Http11 | Http2 | Http3

  /** `Version::default()`. */
  const DefaultVersion: Version := Http11

  /** `RequestBuilder`: a URL, headers, an optional body and an HTTP version. */
  class RequestBuilder {
    var url: UrlBuilder
    var headers: Headers
    var body: Option<string>
    var version: Version

    /** The request as `from_input` finally assembles it: no body and the default version. */
    constructor (url: UrlBuilder, headers: Headers)
      ensures this.url == url && this.headers == headers
      ensures body == None && version == DefaultVersion
    {
      this.url := url;
      this.headers := headers;
      body := None;
      version := DefaultVersion;
    }

    /** `add_query`: the pairs, URL-encoded, joined to the URL's query. */
    method AddQuery(pairs: seq<(string, string)>, escape: string -> string)
      modifies url
      ensures url.query == QueryAfter(old(url.query), pairs, escape)
      ensures url.scheme == old(url.scheme) && url.hostname == old(url.hostname)
      ensures url.port == old(url.port) && url.path == old(url.path)
    {
      if pairs == [] {
        return;
      }
      var encoded := EncodePairs(pairs, escape);
      match url.query {
        case Some(q) =>
          if q != "" {
            url.query := Some(q + "&" + encoded);
          } else {
            url.query := Some(encoded);
          }
        case None =>
          url.query := Some(encoded);
      }
    }

    /** `merge_headers`: the given header map replaces the values of each of its names. */
    method MergeHeaders(groups: seq<(string, seq<string>)>)
      requires IsHeaderMap(groups)
      modifies this
      ensures headers == old(headers) + ToMap(groups)
      ensures url == old(url) && body == old(body) && version == old(version)
    {
      if groups == [] {
        assert old(headers) + ToMap(groups) == headers;
        return;
      }
      ReplaceHeadersMerges(headers, groups);
      if groups[0].1 == [] {
        assert false;
      }
      headers := ReplaceHeaders(headers, Stream(groups));
    }

    /** `add_data`: raw data or body values become the body, never both. */
    method AddData(values: seq<Parser.BodyValue>, data: Option<string>,
                   build: seq<Parser.BodyValue> -> Option<string>) returns (r: Outcome<DataError>)
      modifies this
      ensures r.Pass? <==> BodyAfter(old(body), values, data, build).Ok?
      ensures r.Pass? ==> body == BodyAfter(old(body), values, data, build).value
      ensures r.Fail? ==> r.error == BodyAfter(old(body), values, data, build).error && body == old(body)
      ensures url == old(url) && headers == old(headers) && version == old(version)
    {
      if data.Some? && values != [] {
        return Fail(BothDataAndValues);
      }
      if data.Some? {
        body := data;
      }
      if values != [] {
        var document := build(values);
        if document.None? {
          return Fail(BuildFailed);
        }
        body := document;
      }
      return Pass;
    }

    /** `version`: the HTTP version to send with. */
    method SetVersion(v: Version)
      modifies this
      ensures version == v
      ensures url == old(url) && headers == old(headers) && body == old(body)
    {
      version := v;
    }
  }
}
