/**
 * The URL builder (`src/url_builder.rs`): a record of optional URL parts that
 * user input fills in, that session settings may complete later, and that
 * is finally assembled into one URL string.
 *
 * Parsing a URL is done by the `url` crate, which is not part of this model:
 * `FromInput` takes it as a parameter that returns the parts the crate
 * would report, or nothing when the text is not a URL.
 */
module UrlBuilding {
  import opened Base
  import opened Combinators

  /** Rust's `u16`, the type of a URL port. */
  type uint16 = x: int | 0 <= x < 0x1_0000

  /** The ways assembling or reading a URL can fail. */
  datatype UrlError =
    | SchemeRequired    // `build` without a scheme
    | HostnameRequired  // `authority` (and so `build`) without a hostname
    | PathRequired      // `build` without a path
    | InvalidUrl        // the URL parser rejected the text ("parse URL")
    | NoHost            // the parsed URL has no host ("get host")

  /** What the URL parser reports about a URL it accepted. */
  datatype ParsedUrl = ParsedUrl(
    scheme: string,
    host: Option<string>,
    port: Option<uint16>,
    path: string,
    query: Option<string>)

  /** The five optional parts of a URL, as values. */
  datatype UrlParts = UrlParts(
    scheme: Option<string>,
    hostname: Option<string>,
    port: Option<string>,
    path: Option<string>,
    query: Option<string>)

  // ---------------------------------------------------------------------------
  // Splitting a string at the first occurrence of a character
  // ---------------------------------------------------------------------------

  /** The text before the first `c` in `s`, and the text after it when there is one. */
  function SplitFirst(s: string, c: char): (r: (string, Option<string>))
    ensures c !in r.0
    ensures r.1.None? ==> r.0 == s && c !in s
    ensures r.1.Some? ==> s == r.0 + [c] + r.1.value
  {
    if s == [] then ([], None)
    else if s[0] == c then ([], Some(s[1..]))
    else
      var (before, after) := SplitFirst(s[1..], c);
      ([s[0]] + before, after)
  }

  /** Splitting `x + [c] + y` at `c`, where `x` has no `c`, gives back `x` and `y`. */
  lemma {:induction false} SplitFirstAt(x: string, c: char, y: string)
    requires c !in x
    ensures SplitFirst(x + [c] + y, c) == (x, Some(y))
    decreases |x|
  {
    if x == [] {
      assert x + [c] + y == [c] + y;
    } else {
      assert (x + [c] + y)[1..] == x[1..] + [c] + y;
      SplitFirstAt(x[1..], c, y);
      assert [x[0]] + x[1..] == x;
    }
  }

  /** A string without `c` does not split. */
  lemma SplitFirstAbsent(x: string, c: char)
    requires c !in x
    ensures SplitFirst(x, c) == (x, None)
  {
  }

  // ---------------------------------------------------------------------------
  // authority and build
  // ---------------------------------------------------------------------------

  /** The authority of a URL: its hostname, followed by `:` and the port when there is one. */
  function AuthorityOf(hostname: Option<string>, port: Option<string>): (r: Result<string, UrlError>)
    ensures r.Err? <==> hostname.None?
    ensures r.Err? ==> r.error == HostnameRequired
    ensures r.Ok? && port.None? ==> r.value == hostname.value
    ensures r.Ok? && port.Some? ==> r.value == hostname.value + ":" + port.value
  {
    match hostname
    case None => Err(HostnameRequired)
    case Some(h) =>
      match port
      case None => Ok(h)
      case Some(p) => Ok(h + ":" + p)
  }

  /** A hostname without `:` is recovered, with the port, from the authority. */
  lemma AuthoritySplits(hostname: string, port: Option<string>)
    requires ':' !in hostname
    ensures AuthorityOf(Some(hostname), port).Ok?
    ensures SplitFirst(AuthorityOf(Some(hostname), port).value, ':') == (hostname, port)
  {
    match port
    case None => SplitFirstAbsent(hostname, ':');
    case Some(p) => SplitFirstAt(hostname, ':', p);
  }

  /** `"?"` followed by the query when there is one, nothing otherwise. */
  function QuerySuffix(query: Option<string>): string
  {
    match query
    case None => ""
    case Some(q) => "?" + q
  }

  /**
   * The URL assembled from its parts: the scheme is checked first, then the
   * hostname (through the authority), then the path.
   */
  function BuildUrl(p: UrlParts): (r: Result<string, UrlError>)
    ensures p.scheme.None? ==> r == Err(SchemeRequired)
    ensures p.scheme.Some? && p.hostname.None? ==> r == Err(HostnameRequired)
    ensures p.scheme.Some? && p.hostname.Some? && p.path.None? ==> r == Err(PathRequired)
    ensures r.Ok? <==> p.scheme.Some? && p.hostname.Some? && p.path.Some?
  {
    match p.scheme
    case None => Err(SchemeRequired)
    case Some(scheme) =>
      match AuthorityOf(p.hostname, p.port)
      case Err(e) => Err(e)
      case Ok(authority) =>
        match p.path
        case None => Err(PathRequired)
        case Some(path) => Ok(scheme + "://" + authority + path + QuerySuffix(p.query))
  }

  /**
   * Parts that can be read back from the URL they build: no `:` in the scheme,
   * no `:` or `/` in the hostname, no `/` in the port, and a path that starts
   * with `/` and holds no `?` (the query may hold anything).
   */
  predicate Separable(p: UrlParts)
  {
    && p.scheme.Some? && p.hostname.Some? && p.path.Some?
    && ':' !in p.scheme.value
    && ':' !in p.hostname.value && '/' !in p.hostname.value
    && (p.port.Some? ==> '/' !in p.port.value)
    && p.path.value != [] && p.path.value[0] == '/' && '?' !in p.path.value
  }

  /**
   * Reads the parts back from a URL: the scheme up to the first `:`, then `//`,
   * the authority up to the next `/`, split at its first `:` into hostname and
   * port, then the path up to the first `?` and the query after it.
   */
  function ReadUrl(url: string): Option<UrlParts>
  {
    var (scheme, afterScheme) := SplitFirst(url, ':');
    if afterScheme.None? || !("//" <= afterScheme.value) then None
    else
      var (authority, afterAuthority) := SplitFirst(afterScheme.value[2..], '/');
      if afterAuthority.None? then None
      else
        var (hostname, port) := SplitFirst(authority, ':');
        var (path, query) := SplitFirst("/" + afterAuthority.value, '?');
        Some(UrlParts(Some(scheme), Some(hostname), port, Some(path), query))
  }

  /** A path and its query suffix split back at the first `?`. */
  lemma PathQuerySplits(path: string, query: Option<string>)
    requires '?' !in path
    ensures SplitFirst(path + QuerySuffix(query), '?') == (path, query)
  {
    match query
    case None =>
      assert path + QuerySuffix(query) == path;
      SplitFirstAbsent(path, '?');
    case Some(q) =>
      assert path + QuerySuffix(query) == path + ['?'] + q;
      SplitFirstAt(path, '?', q);
  }

  /** The three regroupings of the built URL that reading it back relies on. */
  lemma BuiltShape(scheme: string, authority: string, path: string, suffix: string)
    requires path != [] && path[0] == '/'
    ensures scheme + "://" + authority + path + suffix
         == scheme + [':'] + ("//" + (authority + [path[0]] + (path[1..] + suffix)))
    ensures ("//" + (authority + [path[0]] + (path[1..] + suffix)))[2..]
         == authority + [path[0]] + (path[1..] + suffix)
    ensures "/" + (path[1..] + suffix) == path + suffix
  {
    assert path == [path[0]] + path[1..];
  }

  /**
   * Reading a built URL back gives the parts it was built from: in
   * particular a port appears exactly when there is one, and a `?` exactly
   * when there is a query, even an empty one.
   */
  lemma BuildRoundTrip(p: UrlParts)
    requires Separable(p)
    ensures BuildUrl(p).Ok?
    ensures ReadUrl(BuildUrl(p).value) == Some(p)
  {
    var scheme, hostname, path := p.scheme.value, p.hostname.value, p.path.value;
    AuthoritySplits(hostname, p.port);
    var authority := AuthorityOf(p.hostname, p.port).value;
    assert '/' !in authority by {
      if p.port.Some? {
        assert authority == hostname + [':'] + p.port.value;
      }
    }
    var suffix := QuerySuffix(p.query);
    var rest := path[1..] + suffix;
    BuiltShape(scheme, authority, path, suffix);
    SplitFirstAt(scheme, ':', "//" + (authority + [path[0]] + rest));
    SplitFirstAt(authority, '/', rest);
    PathQuerySplits(path, p.query);
  }

  /** A query that is present but empty still adds the `?`. */
  lemma EmptyQueryKeepsMark(p: UrlParts)
    requires p.scheme.Some? && p.hostname.Some? && p.path.Some? && p.query == Some("")
    ensures BuildUrl(p).Ok?
    ensures BuildUrl(p).value[|BuildUrl(p).value| - 1] == '?'
  {
  }

  // ---------------------------------------------------------------------------
  // from_input
  // ---------------------------------------------------------------------------

  /** Input that is a complete URL: it starts with `http://` or `https://`. */
  predicate IsFullUrl(input: string)
  {
    "http://" <= input || "https://" <= input
  }

  /** A complete URL does not start with `:`. */
  lemma FullUrlNotColon(input: string)
    requires IsFullUrl(input)
    ensures !(":" <= input)
  {
    assert input[0] == 'h';
  }

  /** The text handed to the URL parser for the given input. */
  function ParsedText(input: string, fallback: string): string
  {
    if IsFullUrl(input) then input
    else if ":" <= input then "https://" + fallback + input
    else "https://" + input
  }

  /** The text of a port, as Rust's `to_string` prints a `u16`. */
  function PortText(port: Option<uint16>): (r: Option<string>)
    ensures r.Some? <==> port.Some?
    ensures r.Some? ==> r.value != [] && AllDigits(r.value)
  {
    match port
    case None => None
    case Some(n) => Some(Decimal(n))
  }

  /**
   * The parts `from_input` fills in:
   *   - a complete URL is parsed as it is and gives all five parts;
   *   - input starting with `:` (a port, then maybe a path) is parsed after
   *     `https://` and the fallback hostname, and the hostname is the fallback;
   *   - anything else is parsed after `https://`;
   * and only a complete URL sets the scheme.
   */
  function InputParts(input: string, fallback: string, parse: string -> Option<ParsedUrl>): (r: Result<UrlParts, UrlError>)
    ensures parse(ParsedText(input, fallback)).None? ==> r == Err(InvalidUrl)
    ensures r.Err? <==>
      || parse(ParsedText(input, fallback)).None?
      || (!(":" <= input) && parse(ParsedText(input, fallback)).value.host.None?)
    ensures r.Ok? ==> (r.value.scheme.Some? <==> IsFullUrl(input))
    ensures r.Ok? && ":" <= input ==> r.value.hostname == Some(fallback)
    ensures r.Ok? ==> r.value.hostname.Some? && r.value.path.Some?
  {
    match parse(ParsedText(input, fallback))
    case None => Err(InvalidUrl)
    case Some(u) =>
      if IsFullUrl(input) then
        FullUrlNotColon(input);
        if u.host.None? then Err(NoHost)
        else Ok(UrlParts(Some(u.scheme), u.host, PortText(u.port), Some(u.path), u.query))
      else if ":" <= input then
        Ok(UrlParts(None, Some(fallback), PortText(u.port), Some(u.path), u.query))
      else
        if u.host.None? then Err(NoHost)
        else Ok(UrlParts(None, u.host, PortText(u.port), Some(u.path), u.query))
  }

  // ---------------------------------------------------------------------------
  // The builder record
  // ---------------------------------------------------------------------------

  /** `URLBuilder`: the parts of a URL, each filled in when known. */
  class UrlBuilder {
    var scheme: Option<string>
    var hostname: Option<string>
    var port: Option<string>
    var path: Option<string>
    var query: Option<string>

    /** The five parts, as one value. */
    function Parts(): UrlParts
      reads this
    {
      UrlParts(scheme, hostname, port, path, query)
    }

    /** `new`: a builder with no part filled in. */
    constructor ()
      ensures Parts() == UrlParts(None, None, None, None, None)
    {
      scheme, hostname, port, path, query := None, None, None, None, None;
    }

    /** `authority`: the hostname, then `:` and the port, appended to an empty string. */
    method Authority() returns (r: Result<string, UrlError>)
      ensures r == AuthorityOf(hostname, port)
    {
      var authority := "";
      if hostname.None? {
        return Err(HostnameRequired);
      }
      authority := authority + hostname.value;
      assert authority == hostname.value;
      if port.Some? {
        authority := authority + ":";
        authority := authority + port.value;
      }
      return Ok(authority);
    }

    /**
     * `build`: the URL assembled from the parts. It fails on the first missing
     * part of scheme, hostname and path, in that order, and when the parts are
     * separable the URL reads back as exactly the builder's parts.
     */
    function Build(): (r: Result<string, UrlError>)
      reads this
      ensures r.Ok? <==> scheme.Some? && hostname.Some? && path.Some?
      ensures r.Err? ==>
        r.error == if scheme.None? then SchemeRequired else if hostname.None? then HostnameRequired else PathRequired
      ensures Separable(Parts()) ==> r.Ok? && ReadUrl(r.value) == Some(Parts())
    {
      if Separable(Parts()) then
        BuildRoundTrip(Parts());
        BuildUrl(Parts())
      else
        BuildUrl(Parts())
    }

    /**
     * `from_input`: a new builder whose fields are assigned one by one from
     * the parsed input.
     */
    static method FromInput(input: string, fallback: string, parse: string -> Option<ParsedUrl>)
      returns (r: Result<UrlBuilder, UrlError>)
      ensures r.Ok? <==> InputParts(input, fallback, parse).Ok?
      ensures r.Err? ==> r.error == InputParts(input, fallback, parse).error
      ensures r.Ok? ==> fresh(r.value) && r.value.Parts() == InputParts(input, fallback, parse).value
    {
      var builder := new UrlBuilder();
      if IsFullUrl(input) {
        var parsed := parse(input);
        if parsed.None? {
          return Err(InvalidUrl);
        }
        builder.scheme := Some(parsed.value.scheme);
        if parsed.value.host.None? {
          return Err(NoHost);
        }
        builder.hostname := parsed.value.host;
        builder.port := PortText(parsed.value.port);
        builder.path := Some(parsed.value.path);
        builder.query := parsed.value.query;
      } else if ":" <= input {
        var parsed := parse("https://" + fallback + input);
        if parsed.None? {
          return Err(InvalidUrl);
        }
        builder.hostname := Some(fallback);
        builder.port := PortText(parsed.value.port);
        builder.path := Some(parsed.value.path);
        builder.query := parsed.value.query;
      } else {
        var parsed := parse("https://" + input);
        if parsed.None? {
          return Err(InvalidUrl);
        }
        if parsed.value.host.None? {
          return Err(NoHost);
        }
        builder.hostname := parsed.value.host;
        builder.port := PortText(parsed.value.port);
        builder.path := Some(parsed.value.path);
        builder.query := parsed.value.query;
      }
      return Ok(builder);
    }
  }
}
