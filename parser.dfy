/**
 * The request-component parser: one command-line token is a query parameter
 * (`name==value`), a body value (`path=value` for a string, `path:=value` for
 * JSON text) or a header (`Name:value`). Body paths are broken into
 * `PathAccess` steps here; `ArrayEnd` steps are resolved only when the tree is
 * written.
 *
 * Every parser is a function from the input to `Option<(recognised, rest)>`,
 * built from the combinators in `Combinators`.
 */
module Parser {
  import opened Base
  import opened Combinators
  import opened JsonBuilder

  /** A body fragment: the path and the text after the operator, verbatim. */
  datatype BodyValue =
    | String(path: seq<PathAccess>, value: string)
    | JSON(path: seq<PathAccess>, value: string)

  datatype RequestComponent =
    | QueryParam(name: string, value: string)
    | Header(name: string, value: string)
    | Body(body: BodyValue)

  /** "Remainder found in request component" and "Invalid request component". */
  datatype ParseError = RemainderFound | InvalidComponent


  predicate NoEquals(s: string) { forall i :: 0 <= i < |s| ==> s[i] != '=' }

  function OpenBracket(s: string): Option<(string, string)> { Tag("[", s) }

  function CloseBracket(s: string): Option<(string, string)> { Tag("]", s) }

  function Dot(s: string): Option<(string, string)> { Tag(".", s) }

  // ---------------------------------------------------------------------------
  // Path steps

  /** A character that can appear in a bare or dotted key: anything but `.`, `[`, `=` and `:`. */
  predicate IsRawKeyChar(c: char) { c != '.' && c != '[' && c != '=' && c != ':' }

  predicate IsBracketKeyChar(c: char) { c != ']' }

  function RawObjectKey(s: string): Option<(string, string)> { TakeWhile1(IsRawKeyChar, s) }

  function BracketKey(s: string): Option<(string, string)> { TakeWhile1(IsBracketKeyChar, s) }

  function BracketedKey(s: string): Option<(string, string)> { Delimited(OpenBracket, BracketKey, CloseBracket, s) }

  function DottedKey(s: string): Option<(string, string)> { Preceded(Dot, RawObjectKey, s) }

  /** `object_key`: `[key]`, `.key` or a bare `key`, tried in that order. */
  function ParseObjectKey(s: string): (r: Option<(PathAccess, string)>)
    ensures r.Some? ==> r.value.0.ObjectKey? && r.value.0.key != [] && |r.value.1| < |s| && Suffix(r.value.1, s)
  {
    match Alt3(BracketedKey, DottedKey, RawObjectKey, s)
    case None => None
    case Some((k, rest)) => Some((ObjectKey(k), rest))
  }

  function BracketedIndex(s: string): (r: Option<(uint32, string)>)
    ensures r.Some? ==> |r.value.1| < |s| && Suffix(r.value.1, s)
  {
    Delimited(OpenBracket, U32, CloseBracket, s)
  }

  function DottedIndex(s: string): (r: Option<(uint32, string)>)
    ensures r.Some? ==> |r.value.1| < |s| && Suffix(r.value.1, s)
  {
    Preceded(Dot, U32, s)
  }

  /** `array_index`: `[digits]`, `.digits` or bare digits, read as a `u32`. */
  function ParseArrayIndex(s: string): (r: Option<(PathAccess, string)>)
    ensures r.Some? ==> r.value.0.ArrayIndex? && |r.value.1| < |s| && Suffix(r.value.1, s)
  {
    match Alt3(BracketedIndex, DottedIndex, U32, s)
    case None => None
    case Some((i, rest)) => Some((ArrayIndex(i), rest))
  }

  /** `array_end`: the literal `[]`. */
  function ParseArrayEnd(s: string): (r: Option<(PathAccess, string)>)
    ensures r.Some? <==> "[]" <= s
    ensures r.Some? ==> r.value == (ArrayEnd, s[2..])
  {
    match Tag("[]", s)
    case None => None
    case Some((_, rest)) => Some((ArrayEnd, rest))
  }

  /** One path step: an array index is tried first, then an object key, then `[]`. */
  function PathStep(s: string): (r: Option<(PathAccess, string)>)
    ensures r.Some? ==> |r.value.1| < |s| && Suffix(r.value.1, s)
  {
    Alt3(ParseArrayIndex, ParseObjectKey, ParseArrayEnd, s)
  }

  // ---------------------------------------------------------------------------
  // The three kinds of component

  function JsonOperator(s: string): Option<(bool, string)> { Value(true, t => Tag(":=", t), s) }

  function StringOperator(s: string): Option<(bool, string)> { Value(false, t => Tag("=", t), s) }

  /**
   * `body`: the path steps, then `:=` (JSON) or `=` (string); the value is
   * all the input after the operator, and nothing is left over.
   */
  function ParseBody(s: string): (r: Option<(RequestComponent, string)>)
    ensures r.Some? ==> r.value.1 == [] && r.value.0.Body?
    ensures r.Some? ==>
      var b := r.value.0.body;
      Suffix((if b.JSON? then ":=" else "=") + b.value, s)
  {
    PathStepsAlwaysSucceed(s);
    match Many0(PathStep, s)
    case None => None
    case Some((path, rest)) =>
      match Alt(JsonOperator, StringOperator, rest)
      case None => None
      case Some((isJson, value)) =>
        assert rest == (if isJson then ":=" else "=") + value;
        Some((Body(if isJson then JSON(path, value) else String(path, value)), ""))
  }

  predicate NotEquals(c: char) { c != '=' }

  predicate AnyChar(c: char) { true }

  /** `query_param_key`: everything before the first `=`, which must not be empty. */
  function QueryParamKey(s: string): (r: Option<(string, string)>)
    ensures r.Some? <==> s != [] && s[0] != '='
    ensures r.Some? ==> r.value.0 != [] && NoEquals(r.value.0) && r.value.0 + r.value.1 == s
    ensures r.Some? ==> r.value.1 == [] || r.value.1[0] == '='
  {
    TakeWhile1(NotEquals, s)
  }

  /** `query_param_value`: the whole rest of the input, which must not be empty. */
  function QueryParamValue(s: string): (r: Option<(string, string)>)
    ensures r.Some? <==> s != []
    ensures r.Some? ==> r.value == (s, [])
  {
    assert s + [] == s;
    TakeWhile1Split(AnyChar, s, []);
    TakeWhile1(AnyChar, s)
  }

  /** `query_param`: a key without `=`, then `==`, then a non-empty value taken verbatim. */
  function ParseQueryParam(s: string): (r: Option<(RequestComponent, string)>)
    ensures r.Some? ==>
      var c := r.value.0;
      r.value.1 == [] && c.QueryParam? && c.name != [] && NoEquals(c.name) && c.value != []
      && s == c.name + "==" + c.value
  {
    match SeparatedPair(QueryParamKey, t => Tag("==", t), QueryParamValue, s)
    case None => None
    case Some(((name, value), rest)) => Some((QueryParam(name, value), rest))
  }

  /**
   * Header-name characters as the code writes them: the ranges `'A'..'Z'`,
   * `'a'..'z'` and `'0'..'9'` are half-open, so they miss `Z`, `z` and `9`.
   */
  predicate IsHeaderNameCharAsWritten(c: char): (b: bool)
    ensures b <==> IsHeaderNameChar(c) && c != 'Z' && c != 'z' && c != '9'
  {
    ('A' <= c < 'Z') || ('a' <= c < 'z') || ('0' <= c < '9') || c == '_' || c == '-'
  }

  /** Header-name characters as evidently intended: ASCII letters, digits, `_` and `-`. */
  predicate IsHeaderNameChar(c: char) {
    ('A' <= c <= 'Z') || ('a' <= c <= 'z') || ('0' <= c <= '9') || c == '_' || c == '-'
  }

  predicate IsHeaderName(nameChar: char -> bool, n: string) {
    n != [] && forall i :: 0 <= i < |n| ==> nameChar(n[i])
  }

  /** `header_value`: the whole rest of the input, which must not be empty. */
  function HeaderValue(s: string): (r: Option<(string, string)>)
    ensures r.Some? <==> s != []
    ensures r.Some? ==> r.value == (s, [])
  {
    assert s + [] == s;
    TakeWhile1Split(AnyChar, s, []);
    TakeWhile1(AnyChar, s)
  }

  /** `header`: a run of name characters, then `:`, then a non-empty value taken verbatim. */
  function ParseHeaderWith(nameChar: char -> bool, s: string): (r: Option<(RequestComponent, string)>)
    ensures r.Some? ==>
      var c := r.value.0;
      r.value.1 == [] && c.Header? && IsHeaderName(nameChar, c.name) && c.value != []
      && s == c.name + ":" + c.value
  {
    match SeparatedPair(t => TakeWhile1(nameChar, t), t => Tag(":", t), HeaderValue, s)
    case None => None
    case Some(((name, value), rest)) => Some((Header(name, value), rest))
  }

  /**
   * `parse_component`: query parameter, then body, then header; the first that
   * succeeds decides. Every alternative consumes the whole token, so the
   * "remainder found" error is never produced.
   */
  function ParseComponentWith(nameChar: char -> bool, s: string): (r: Result<RequestComponent, ParseError>)
    ensures r != Err(RemainderFound)
  {
    match Alt3(ParseQueryParam, ParseBody, t => ParseHeaderWith(nameChar, t), s)
    case None => Err(InvalidComponent)
    case Some((c, rest)) => if rest == [] then Ok(c) else Err(RemainderFound)
  }

  /**
   * `parse_component` exactly as written, with the half-open header-name
   * ranges: no header it accepts has `Z`, `z` or `9` in its name.
   */
  function ParseComponentAsWritten(s: string): (r: Result<RequestComponent, ParseError>)
    ensures r != Err(RemainderFound)
    ensures r.Ok? && r.value.Header? ==>
      s == r.value.name + ":" + r.value.value && r.value.value != [] && r.value.name != []
      && forall i :: 0 <= i < |r.value.name| ==>
           IsHeaderNameChar(r.value.name[i]) && r.value.name[i] != 'Z' && r.value.name[i] != 'z' && r.value.name[i] != '9'
  {
    var r := ParseComponentWith(IsHeaderNameCharAsWritten, s);
    if r.Ok? && r.value.Header? then
      HeaderShape(IsHeaderNameCharAsWritten, s, r.value.name, r.value.value);
      r
    else
      r
  }

  /**
   * `parse_component` with the header-name ranges corrected. The component
   * lemmas below are stated for any header-name class, so they hold for this
   * parser and for the one as written; the two differ only in the headers
   * they accept.
   */
  function ParseComponent(s: string): Result<RequestComponent, ParseError>
  {
    ParseComponentWith(IsHeaderNameChar, s)
  }

  // ---------------------------------------------------------------------------
  // Path-step lemmas

  /**
   * `many0` over path steps never fails: every step that succeeds consumes
   * something, so nom's no-progress error cannot arise.
   */
  lemma {:induction false} PathStepsAlwaysSucceed(s: string)
    ensures Many0(PathStep, s).Some? && Suffix(Many0(PathStep, s).value.1, s)
    decreases |s|
  {
    match PathStep(s)
    case None =>
    case Some((_, rest)) =>
      PathStepsAlwaysSucceed(rest);
      SuffixOfSuffix(Many0(PathStep, rest).value.1, rest, s);
  }

  /** No path step starts at the end of the input or at an operator or `:`. */
  lemma StepStops(y: string)
    requires y == [] || y[0] == '=' || y[0] == ':'
    ensures PathStep(y) == None
  {
  }

  /** `[]` is an `ArrayEnd` step. */
  lemma StepArrayEnd(y: string)
    ensures PathStep("[]" + y) == Some((ArrayEnd, y))
  {
    var s := "[]" + y;
    assert s[0] == '[' && s[1] == ']' && s[1..] == "]" + y;
    assert U32(s[1..]) == None;
    assert s[2..] == y;
  }

  /** Only the bracketed alternatives can start with `[`. */
  lemma OpenBracketOnly(s: string)
    requires s != [] && s[0] == '['
    ensures DottedIndex(s) == None && U32(s) == None
    ensures DottedKey(s) == None && RawObjectKey(s) == None
  {
  }

  /** Only the dotted alternatives can start with `.`. */
  lemma DotOnly(s: string)
    requires s != [] && s[0] == '.'
    ensures BracketedIndex(s) == None && U32(s) == None
    ensures BracketedKey(s) == None && RawObjectKey(s) == None
    ensures ParseArrayEnd(s) == None
  {
  }

  /** Neither bracketed nor dotted alternatives start with a key character. */
  lemma RawOnly(s: string)
    requires s != [] && IsRawKeyChar(s[0])
    ensures BracketedIndex(s) == None && DottedIndex(s) == None
    ensures BracketedKey(s) == None && DottedKey(s) == None
    ensures ParseArrayEnd(s) == None
  {
  }

  /** `[k]` is read as an index exactly when `k` is a non-empty decimal number that fits in 32 bits. */
  lemma BracketedIndexIff(k: string, y: string)
    requires forall i :: 0 <= i < |k| ==> k[i] != ']'
    ensures BracketedIndex("[" + k + "]" + y)
         == if k != [] && AllDigits(k) && FitsU32(k) then Some((DecimalValue(k) as uint32, y)) else None
  {
    var s := "[" + k + "]" + y;
    var t := "]" + y;
    assert s[..1] == "[" && s[1..] == k + t;
    U32BeforeClose(k, y);
    assert t[..1] == "]" && t[1..] == y;
  }

  /** Inside brackets, `u32` reaches the `]` exactly when the whole key is a number that fits. */
  lemma U32BeforeClose(k: string, y: string)
    requires forall i :: 0 <= i < |k| ==> k[i] != ']'
    ensures var r := U32(k + ("]" + y));
      (r.Some? && r.value.1 == "]" + y) <==> k != [] && AllDigits(k) && FitsU32(k)
    ensures var r := U32(k + ("]" + y));
      r.Some? && r.value.1 != "]" + y ==> r.value.1 == [] || r.value.1[0] != ']'
    ensures k != [] && AllDigits(k) && FitsU32(k) ==> U32(k + ("]" + y)) == Some((DecimalValue(k) as uint32, "]" + y))
  {
    var t := "]" + y;
    var n := SpanLength(IsDigit, k);
    SpanLengthAppend(IsDigit, k, t);
    assert (k + t)[..n] == k[..n];
    assert (k + t)[n..] == k[n..] + t;
    if n < |k| {
      assert !IsDigit(k[n]) && (k[n..] + t)[0] == k[n];
      assert !AllDigits(k);
      assert |k[n..] + t| > |t|;
    } else {
      assert k[..n] == k && k[n..] + t == t;
    }
  }

  lemma BracketedKeyRead(k: string, y: string)
    requires k != [] && forall i :: 0 <= i < |k| ==> k[i] != ']'
    ensures BracketedKey("[" + k + "]" + y) == Some((k, y))
  {
    var s := "[" + k + "]" + y;
    assert s[..1] == "[" && s[1..] == k + ("]" + y);
    TakeWhile1Split(IsBracketKeyChar, k, "]" + y);
  }

  /** `[digits]` whose value fits in 32 bits is an `ArrayIndex` step. */
  lemma StepBracketIndex(d: string, y: string)
    requires d != [] && AllDigits(d) && FitsU32(d)
    ensures PathStep("[" + d + "]" + y) == Some((ArrayIndex(DecimalValue(d) as uint32), y))
  {
    BracketedIndexIff(d, y);
  }

  /**
   * `[key]` is an `ObjectKey` step when the key is non-empty, has no `]`, and
   * is not a decimal number that fits in 32 bits (an overflowing number stays
   * a key).
   */
  lemma StepBracketKey(k: string, y: string)
    requires k != [] && forall i :: 0 <= i < |k| ==> k[i] != ']'
    requires !(AllDigits(k) && FitsU32(k))
    ensures PathStep("[" + k + "]" + y) == Some((ObjectKey(k), y))
  {
    var s := "[" + k + "]" + y;
    BracketedIndexIff(k, y);
    BracketedKeyRead(k, y);
    OpenBracketOnly(s);
    assert ParseArrayIndex(s) == None;
    assert ParseObjectKey(s) == Some((ObjectKey(k), y));
  }

  /** Bare digits, stopped by a non-digit, are an `ArrayIndex` step when they fit in 32 bits. */
  lemma StepBareIndex(d: string, y: string)
    requires d != [] && AllDigits(d) && FitsU32(d)
    requires y == [] || !IsDigit(y[0])
    ensures PathStep(d + y) == Some((ArrayIndex(DecimalValue(d) as uint32), y))
  {
    U32Split(d, y);
    assert (d + y)[0] == d[0];
    RawOnly(d + y);
  }

  /** `.digits`, stopped by a non-digit, is an `ArrayIndex` step when the digits fit in 32 bits. */
  lemma StepDotIndex(d: string, y: string)
    requires d != [] && AllDigits(d) && FitsU32(d)
    requires y == [] || !IsDigit(y[0])
    ensures PathStep("." + d + y) == Some((ArrayIndex(DecimalValue(d) as uint32), y))
  {
    var s := "." + d + y;
    assert s[..1] == "." && s[1..] == d + y;
    U32Split(d, y);
    DotOnly(s);
  }

  /** A key run whose leading digits, if any, do not fit in 32 bits is not an index. */
  lemma U32FailsOnKey(k: string, y: string)
    requires k != [] && forall i :: 0 <= i < |k| ==> IsRawKeyChar(k[i])
    requires y == [] || !IsRawKeyChar(y[0])
    requires var n := SpanLength(IsDigit, k); !(0 < n && FitsU32(k[..n]))
    ensures U32(k + y) == None
  {
    var n := SpanLength(IsDigit, k);
    SpanLengthAppend(IsDigit, k, y);
    assert (k + y)[..n] == k[..n];
  }

  /**
   * A bare key, stopped by one of `.`, `[`, `=`, `:` or the end, is an
   * `ObjectKey` step unless it starts with digits that fit in 32 bits.
   */
  lemma StepBareKey(k: string, y: string)
    requires k != [] && forall i :: 0 <= i < |k| ==> IsRawKeyChar(k[i])
    requires y == [] || !IsRawKeyChar(y[0])
    requires var n := SpanLength(IsDigit, k); !(0 < n && FitsU32(k[..n]))
    ensures PathStep(k + y) == Some((ObjectKey(k), y))
  {
    var s := k + y;
    assert s[0] == k[0];
    U32FailsOnKey(k, y);
    RawOnly(s);
    TakeWhile1Split(IsRawKeyChar, k, y);
    assert ParseArrayIndex(s) == None;
    assert ParseObjectKey(s) == Some((ObjectKey(k), y));
  }

  /** After a leading `.`, the dotted parsers run on the rest. */
  lemma DotThen(rest: string)
    ensures DottedIndex("." + rest) == U32(rest)
    ensures DottedKey("." + rest) == RawObjectKey(rest)
  {
    var s := "." + rest;
    assert s[..1] == "." && s[1..] == rest;
    assert Dot(s) == Some((".", rest));
  }

  lemma DottedKeyRead(k: string, y: string)
    requires k != [] && forall i :: 0 <= i < |k| ==> IsRawKeyChar(k[i])
    requires y == [] || !IsRawKeyChar(y[0])
    requires var n := SpanLength(IsDigit, k); !(0 < n && FitsU32(k[..n]))
    ensures DottedIndex("." + k + y) == None
    ensures DottedKey("." + k + y) == Some((k, y))
  {
    assert "." + k + y == "." + (k + y);
    DotThen(k + y);
    U32FailsOnKey(k, y);
    TakeWhile1Split(IsRawKeyChar, k, y);
  }

  /** `.key` is an `ObjectKey` step on the same terms as a bare key. */
  lemma StepDotKey(k: string, y: string)
    requires k != [] && forall i :: 0 <= i < |k| ==> IsRawKeyChar(k[i])
    requires y == [] || !IsRawKeyChar(y[0])
    requires var n := SpanLength(IsDigit, k); !(0 < n && FitsU32(k[..n]))
    ensures PathStep("." + k + y) == Some((ObjectKey(k), y))
  {
    var s := "." + k + y;
    DottedKeyRead(k, y);
    DotOnly(s);
    assert ParseArrayIndex(s) == None;
    assert ParseObjectKey(s) == Some((ObjectKey(k), y));
  }

  /**
   * One step into a run of key characters that the input continues with an
   * operator, `:` or the end consumes a non-empty prefix of the run; `m` is
   * its length.
   */
  lemma StepInRawRun(x: string, y: string) returns (m: nat)
    requires x != [] && forall i :: 0 <= i < |x| ==> IsRawKeyChar(x[i])
    requires y == [] || y[0] == '=' || y[0] == ':'
    ensures 0 < m <= |x| && PathStep(x + y).Some? && PathStep(x + y).value.1 == x[m..] + y
  {
    var n := SpanLength(IsDigit, x);
    if 0 < n && FitsU32(x[..n]) {
      var d, r := x[..n], x[n..] + y;
      assert x + y == d + r;
      assert r == [] || !IsDigit(r[0]) by {
        if n < |x| {
          assert r[0] == x[n];
        }
      }
      StepBareIndex(d, r);
      m := n;
    } else {
      StepBareKey(x, y);
      m := |x|;
      assert x[m..] + y == y;
    }
  }

  /** The path steps consume a whole run of key characters and stop at the operator or `:` after it. */
  lemma {:induction false} RawRunConsumed(x: string, y: string)
    requires forall i :: 0 <= i < |x| ==> IsRawKeyChar(x[i])
    requires y == [] || y[0] == '=' || y[0] == ':'
    ensures Many0(PathStep, x + y).Some? && Many0(PathStep, x + y).value.1 == y
    decreases |x|
  {
    if x == [] {
      assert x + y == y;
      StepStops(y);
    } else {
      var m := StepInRawRun(x, y);
      RawRunConsumed(x[m..], y);
    }
  }

  // ---------------------------------------------------------------------------
  // Rendering a path, and reading it back

  /** A path step written in bracket form. */
  function RenderStep(a: PathAccess): (t: string)
    ensures t != [] && t[0] == '['
  {
    match a
    case ObjectKey(k) => "[" + k + "]"
    case ArrayIndex(i) => "[" + Decimal(i) + "]"
    case ArrayEnd => "[]"
  }

  function Render(path: seq<PathAccess>): string
  {
    if path == [] then "" else RenderStep(path[0]) + Render(path[1..])
  }

  lemma RenderCons(path: seq<PathAccess>, y: string)
    requires path != []
    ensures Render(path) + y == RenderStep(path[0]) + (Render(path[1..]) + y)
  {
  }

  /** A step whose bracket form reads back as itself and holds no `=`. */
  predicate Renderable(a: PathAccess) {
    a.ObjectKey? ==>
      a.key != []
      && (forall i :: 0 <= i < |a.key| ==> a.key[i] != ']' && a.key[i] != '=')
      && !(AllDigits(a.key) && FitsU32(a.key))
  }

  lemma StepRoundTrip(a: PathAccess, y: string)
    requires Renderable(a)
    ensures PathStep(RenderStep(a) + y) == Some((a, y))
  {
    match a
    case ObjectKey(k) =>
      StepBracketKey(k, y);
    case ArrayIndex(i) =>
      var d := Decimal(i);
      DecimalRoundTrip(i);
      StepBracketIndex(d, y);
    case ArrayEnd =>
      StepArrayEnd(y);
  }

  /** Reading the bracket form of a path, up to an operator, `:` or the end, gives back the path. */
  lemma PathRoundTrip(path: seq<PathAccess>, y: string)
    requires forall j :: 0 <= j < |path| ==> Renderable(path[j])
    requires y == [] || y[0] == '=' || y[0] == ':'
    ensures Many0(PathStep, Render(path) + y) == Some((path, y))
  {
    forall a: PathAccess, t: string | Renderable(a)
      ensures PathStep(RenderStep(a) + t) == Some((a, t))
    {
      StepRoundTrip(a, t);
    }
    StepStops(y);
    ReadsBack(PathStep, path, y);
  }

  /**
   * `many0` over a step parser that reads every rendered step back, and stops
   * at `y`, reads a whole rendered path back.
   */
  lemma {:induction false} ReadsBack(p: Parser<PathAccess>, path: seq<PathAccess>, y: string)
    requires forall a: PathAccess, t: string :: Renderable(a) ==> p(RenderStep(a) + t) == Some((a, t))
    requires p(y) == None
    requires forall j :: 0 <= j < |path| ==> Renderable(path[j])
    ensures Many0(p, Render(path) + y) == Some((path, y))
    decreases |path|
  {
    if path == [] {
      assert Render(path) + y == y;
    } else {
      var a, rest := path[0], path[1..];
      assert Renderable(a);
      assert forall j :: 0 <= j < |rest| ==> Renderable(rest[j]);
      ReadsBack(p, rest, y);
      var tail := Render(rest) + y;
      assert p(RenderStep(a) + tail) == Some((a, tail));
      ReadStep(p, a, rest, y);
      RenderCons(path, y);
      assert [a] + rest == path;
    }
  }

  lemma ReadStep(p: Parser<PathAccess>, a: PathAccess, rest: seq<PathAccess>, y: string)
    requires p(RenderStep(a) + (Render(rest) + y)) == Some((a, Render(rest) + y))
    requires Many0(p, Render(rest) + y) == Some((rest, y))
    ensures Many0(p, RenderStep(a) + (Render(rest) + y)) == Some(([a] + rest, y))
  {
    var tail := Render(rest) + y;
    Many0Step(p, RenderStep(a) + tail, a, tail, rest, y);
  }

  lemma {:induction false} RenderNoEquals(path: seq<PathAccess>)
    requires forall j :: 0 <= j < |path| ==> Renderable(path[j])
    ensures NoEquals(Render(path))
    decreases |path|
  {
    if path != [] {
      RenderNoEquals(path[1..]);
      var t := RenderStep(path[0]);
      match path[0]
      case ObjectKey(k) =>
        assert forall i :: 0 <= i < |t| ==> t[i] == '[' || t[i] == ']' || t[i] in k;
      case ArrayIndex(i) =>
        var d := Decimal(i);
        assert forall j :: 0 <= j < |t| ==> t[j] == '[' || t[j] == ']' || t[j] in d;
        assert forall j :: 0 <= j < |d| ==> d[j] != '=';
      case ArrayEnd =>
    }
  }

  // ---------------------------------------------------------------------------
  // The alternatives one by one

  /** A path-step run that ends in a step and then the rest of the run. */
  lemma Many0Cons(s: string, a: PathAccess, rest: string)
    requires PathStep(s) == Some((a, rest))
    requires Many0(PathStep, rest).Some?
    ensures Many0(PathStep, s) == Some(([a] + Many0(PathStep, rest).value.0, Many0(PathStep, rest).value.1))
  {
  }

  /** Where no step applies, `many0` stops at once with no steps. */
  lemma Many0Stops(y: string)
    requires PathStep(y) == None
    ensures Many0(PathStep, y) == Some(([], y))
  {
  }

  /** A token without `=` is never a query parameter. */
  lemma QueryParamNoEquals(s: string)
    requires NoEquals(s)
    ensures ParseQueryParam(s) == None
  {
    assert s + [] == s;
    TakeWhile1Split(NotEquals, s, []);
  }

  /**
   * After a non-empty key without `=` and a first `=`, the token is a query
   * parameter exactly when a second `=` and at least one more character follow.
   */
  lemma QueryParamAt(k: string, v: string)
    requires k != [] && NoEquals(k)
    ensures ParseQueryParam(k + "=" + v) == if |v| >= 2 && v[0] == '=' then Some((QueryParam(k, v[1..]), [])) else None
  {
    var s := k + "=" + v;
    assert s == k + ("=" + v);
    TakeWhile1Split(NotEquals, k, "=" + v);
    assert QueryParamKey(s) == Some((k, "=" + v));
    if |v| >= 2 && v[0] == '=' {
      assert ("=" + v)[..2] == "==" && ("=" + v)[2..] == v[1..];
      assert Tag("==", "=" + v) == Some(("==", v[1..]));
      assert v[1..] + [] == v[1..];
      TakeWhile1Split(AnyChar, v[1..], []);
      assert QueryParamValue(v[1..]) == Some((v[1..], []));
    } else if v != [] && v[0] == '=' {
      assert "=" + v == "==";
      assert Tag("==", "=" + v) == Some(("==", []));
      assert QueryParamValue([]) == None;
      assert SeparatedPair(QueryParamKey, t => Tag("==", t), QueryParamValue, s) == None;
    } else {
      if v == [] {
        assert |"=" + v| == 1;
      } else {
        assert ("=" + v)[1] == v[0];
      }
      assert Tag("==", "=" + v) == None;
    }
  }

  /** Once the path steps have stopped, the body is decided by the operator that follows. */
  lemma BodyAfterSteps(s: string, path: seq<PathAccess>, rest: string)
    requires Many0(PathStep, s) == Some((path, rest))
    ensures ParseBody(s)
         == if ":=" <= rest then Some((Body(JSON(path, rest[2..])), []))
            else if "=" <= rest then Some((Body(String(path, rest[1..])), []))
            else None
  {
  }

  /** A header name followed by `:` and a non-empty value is a header. */
  lemma HeaderAt(nameChar: char -> bool, n: string, v: string)
    requires IsHeaderName(nameChar, n) && !nameChar(':')
    requires v != []
    ensures ParseHeaderWith(nameChar, n + ":" + v) == Some((Header(n, v), []))
  {
    var s := n + ":" + v;
    assert s == n + (":" + v);
    TakeWhile1Split(nameChar, n, ":" + v);
    assert (":" + v)[..1] == ":" && (":" + v)[1..] == v;
    assert v + [] == v;
    TakeWhile1Split(AnyChar, v, []);
  }

  /** A run of name characters stopped by anything but `:` is not a header. */
  lemma HeaderFails(nameChar: char -> bool, n: string, y: string)
    requires IsHeaderName(nameChar, n)
    requires y != [] && !nameChar(y[0]) && y[0] != ':'
    ensures ParseHeaderWith(nameChar, n + y) == None
  {
    TakeWhile1Split(nameChar, n, y);
  }

  /** A run of key characters followed by `:` and anything but `=` is not a body value. */
  lemma NoBodyAfterColon(x: string, v: string)
    requires forall i :: 0 <= i < |x| ==> IsRawKeyChar(x[i])
    requires v == [] || v[0] != '='
    ensures ParseBody(x + ":" + v) == None
  {
    var s := x + ":" + v;
    assert s == x + (":" + v);
    RawRunConsumed(x, ":" + v);
    var m := Many0(PathStep, s).value;
    BodyAfterSteps(s, m.0, m.1);
    assert (":" + v)[0] == ':';
    if v != [] {
      assert (":" + v)[1] == v[0];
    }
  }

  /** A run of key characters followed by `:=` is a JSON body value holding everything after the operator. */
  lemma JsonBodyAfterKeys(x: string, v: string)
    requires forall i :: 0 <= i < |x| ==> IsRawKeyChar(x[i])
    ensures Many0(PathStep, x + ":=" + v).Some?
    ensures ParseBody(x + ":=" + v) == Some((Body(JSON(Many0(PathStep, x + ":=" + v).value.0, v)), []))
  {
    var s := x + ":=" + v;
    assert s == x + (":=" + v);
    RawRunConsumed(x, ":=" + v);
    var m := Many0(PathStep, s).value;
    BodyAfterSteps(s, m.0, m.1);
    assert (":=" + v)[..2] == ":=" && (":=" + v)[2..] == v;
  }

  // ---------------------------------------------------------------------------
  // Properties of parse_component

  /**
   * The alternatives are tried in the order query parameter, body, header; the
   * first that succeeds is the result, and a token none accepts is invalid.
   */
  lemma AlternativeOrder(nameChar: char -> bool, s: string)
    ensures ParseComponentWith(nameChar, s)
         == if ParseQueryParam(s).Some? then Ok(ParseQueryParam(s).value.0)
            else if ParseBody(s).Some? then Ok(ParseBody(s).value.0)
            else if ParseHeaderWith(nameChar, s).Some? then Ok(ParseHeaderWith(nameChar, s).value.0)
            else Err(InvalidComponent)
  {
  }

  /**
   * `name==value` is a query parameter exactly when the name is non-empty and
   * has no `=`, and the value is non-empty; the value is kept verbatim.
   */
  lemma QueryParamIff(nameChar: char -> bool, s: string, k: string, v: string)
    ensures ParseComponentWith(nameChar, s) == Ok(QueryParam(k, v)) <==> s == k + "==" + v && k != [] && NoEquals(k) && v != []
  {
    AlternativeOrder(nameChar, s);
    if s == k + "==" + v && k != [] && NoEquals(k) && v != [] {
      QueryParamAt(k, "=" + v);
      assert k + "=" + ("=" + v) == s;
      assert ("=" + v)[1..] == v;
    }
  }

  /**
   * `key==` has an empty query value, so it falls through to the body parser:
   * the key with the string `=`. `foo==` is an instance.
   */
  lemma EmptyQueryValueIsBody(nameChar: char -> bool, k: string)
    requires k != [] && forall i :: 0 <= i < |k| ==> IsRawKeyChar(k[i])
    requires var n := SpanLength(IsDigit, k); !(0 < n && FitsU32(k[..n]))
    ensures ParseComponentWith(nameChar, k + "==") == Ok(Body(String([ObjectKey(k)], "=")))
  {
    EmptyQueryValueNotQueryParam(k, "=");
    EmptyQueryValueBody(k, "==");
    AlternativeOrder(nameChar, k + "==");
  }

  /** `key==` is no query parameter; `e` stands for the literal `=` so that the proof need not unfold it. */
  lemma EmptyQueryValueNotQueryParam(k: string, e: string)
    requires k != [] && forall i :: 0 <= i < |k| ==> IsRawKeyChar(k[i])
    requires e == "="
    ensures ParseQueryParam(k + "==") == None
  {
    assert k + "==" == k + "=" + e;
    QueryParamAt(k, e);
  }

  lemma EmptyQueryValueBody(k: string, y: string)
    requires k != [] && forall i :: 0 <= i < |k| ==> IsRawKeyChar(k[i])
    requires var n := SpanLength(IsDigit, k); !(0 < n && FitsU32(k[..n]))
    requires y == "=="
    ensures ParseBody(k + y) == Some((Body(String([ObjectKey(k)], "=")), []))
  {
    assert y[0] == '=' && y[1..] == "=";
    EmptyQueryValueSteps(k, y);
    BodyAfterSteps(k + y, [ObjectKey(k)], y);
  }

  lemma EmptyQueryValueSteps(k: string, y: string)
    requires k != [] && forall i :: 0 <= i < |k| ==> IsRawKeyChar(k[i])
    requires var n := SpanLength(IsDigit, k); !(0 < n && FitsU32(k[..n]))
    requires y != [] && y[0] == '='
    ensures Many0(PathStep, k + y) == Some(([ObjectKey(k)], y))
  {
    StepBareKey(k, y);
    StepStops(y);
    Many0Stops(y);
    Many0Cons(k + y, ObjectKey(k), y);
    assert [ObjectKey(k)] + [] == [ObjectKey(k)];
  }

  function OperatorText(json: bool): string { if json then ":=" else "=" }

  /** The bracket form of a path, an operator, and a value that is not `=` followed by more, is not a query parameter. */
  lemma RenderedNotQueryParam(path: seq<PathAccess>, json: bool, v: string)
    requires forall j :: 0 <= j < |path| ==> Renderable(path[j])
    requires !(|v| >= 2 && v[0] == '=')
    ensures ParseQueryParam(Render(path) + OperatorText(json) + v) == None
  {
    var p := Render(path);
    RenderNoEquals(path);
    if json {
      JsonOperatorNotQueryParam(p, v);
    } else if p != [] {
      QueryParamAt(p, v);
    } else {
      assert (p + "=" + v)[0] == '=';
    }
  }

  lemma JsonOperatorNotQueryParam(p: string, v: string)
    requires NoEquals(p)
    requires !(|v| >= 2 && v[0] == '=')
    ensures ParseQueryParam(p + ":=" + v) == None
  {
    assert p + ":=" + v == (p + ":") + "=" + v;
    assert NoEquals(p + ":");
    QueryParamAt(p + ":", v);
  }

  /** The path steps of a rendered path stop at the operator. */
  lemma RenderedSteps(path: seq<PathAccess>, json: bool, v: string)
    requires forall j :: 0 <= j < |path| ==> Renderable(path[j])
    ensures Many0(PathStep, Render(path) + OperatorText(json) + v) == Some((path, OperatorText(json) + v))
  {
    var op := OperatorText(json);
    assert Render(path) + op + v == Render(path) + (op + v);
    PathRoundTrip(path, op + v);
  }

  /** After the path steps, the operator decides the kind of body value and the rest is its value. */
  lemma BodyAfterOperator(s: string, path: seq<PathAccess>, json: bool, v: string)
    requires Many0(PathStep, s) == Some((path, OperatorText(json) + v))
    ensures ParseBody(s) == Some((Body(if json then JSON(path, v) else String(path, v)), []))
  {
    var rest := OperatorText(json) + v;
    BodyAfterSteps(s, path, rest);
    if json {
      assert rest[..2] == ":=" && rest[2..] == v;
    } else {
      assert rest[0] == '=' && rest[1..] == v;
    }
  }

  /**
   * A body value: a path in bracket form, then `:=` or `=`, then any value,
   * reads back as that path and value. The value must not be `=` followed by
   * more text, or the token would already be a query parameter.
   */
  lemma BodyRoundTrip(nameChar: char -> bool, path: seq<PathAccess>, v: string, json: bool)
    requires forall j :: 0 <= j < |path| ==> Renderable(path[j])
    requires !(|v| >= 2 && v[0] == '=')
    ensures ParseComponentWith(nameChar, Render(path) + OperatorText(json) + v)
         == Ok(Body(if json then JSON(path, v) else String(path, v)))
  {
    var s := Render(path) + OperatorText(json) + v;
    RenderedNotQueryParam(path, json, v);
    RenderedSteps(path, json, v);
    BodyAfterOperator(s, path, json, v);
    AlternativeOrder(nameChar, s);
  }

  /**
   * An empty path is allowed: `=x` writes the string `x` at the root. A token
   * starting with `=` has no query key, so even `==x` is the string `=x`.
   */
  lemma EmptyPathBody(nameChar: char -> bool, v: string)
    ensures ParseComponentWith(nameChar, "=" + v) == Ok(Body(String([], v)))
  {
    var s := "=" + v;
    assert QueryParamKey(s) == None;
    StepStops(s);
    Many0Stops(s);
    BodyAfterSteps(s, [], s);
    assert !(":=" <= s) && "=" <= s && s[1..] == v;
    AlternativeOrder(nameChar, s);
  }

  /** A bare key that does not start with a digit. */
  predicate IsWordKey(k: string) {
    k != [] && !IsDigit(k[0]) && forall i :: 0 <= i < |k| ==> IsRawKeyChar(k[i])
  }

  lemma WordKeyStep(k: string, y: string)
    requires IsWordKey(k)
    requires y == [] || !IsRawKeyChar(y[0])
    ensures PathStep(k + y) == Some((ObjectKey(k), y))
    ensures PathStep("." + k + y) == Some((ObjectKey(k), y))
  {
    assert SpanLength(IsDigit, k) == 0;
    StepBareKey(k, y);
    StepDotKey(k, y);
  }

  /** The steps of `.c=v`: the dotted key `c`, then the operator. */
  lemma MixedSteps3(c: string, v: string)
    requires IsWordKey(c)
    ensures Many0(PathStep, "." + c + ("=" + v)) == Some(([ObjectKey(c)], "=" + v))
  {
    var y := "=" + v;
    WordKeyStep(c, y);
    StepStops(y);
    assert Many0(PathStep, y) == Some(([], y));
    Many0Cons("." + c + y, ObjectKey(c), y);
    assert [ObjectKey(c)] + [] == [ObjectKey(c)];
  }

  /** The steps of `d` followed by `.c=v`. */
  lemma MixedSteps2(d: string, y: string, c: string, v: string)
    requires d != [] && AllDigits(d) && FitsU32(d)
    requires IsWordKey(c) && y == "." + c + ("=" + v)
    ensures Many0(PathStep, d + y) == Some(([ArrayIndex(DecimalValue(d) as uint32), ObjectKey(c)], "=" + v))
  {
    MixedSteps3(c, v);
    StepBareIndex(d, y);
    var i := ArrayIndex(DecimalValue(d) as uint32);
    Many0Cons(d + y, i, y);
    assert [i] + [ObjectKey(c)] == [i, ObjectKey(c)];
  }

  /** The steps of `[b]` followed by `d.c=v`. */
  lemma MixedSteps1(b: string, y: string, d: string, y': string, c: string, v: string)
    requires b != [] && !IsDigit(b[0]) && forall i :: 0 <= i < |b| ==> b[i] != ']'
    requires d != [] && AllDigits(d) && FitsU32(d)
    requires IsWordKey(c) && y' == "." + c + ("=" + v) && y == d + y'
    ensures Many0(PathStep, "[" + b + "]" + y)
         == Some(([ObjectKey(b), ArrayIndex(DecimalValue(d) as uint32), ObjectKey(c)], "=" + v))
  {
    MixedSteps2(d, y', c, v);
    StepBracketKey(b, y);
    Many0Cons("[" + b + "]" + y, ObjectKey(b), y);
    var i := ArrayIndex(DecimalValue(d) as uint32);
    assert [ObjectKey(b)] + [i, ObjectKey(c)] == [ObjectKey(b), i, ObjectKey(c)];
  }

  /** The steps of `a[b]d.c=v`, up to the operator. */
  lemma MixedSteps(a: string, b: string, d: string, c: string, v: string)
    requires IsWordKey(a)
    requires b != [] && !IsDigit(b[0]) && forall i :: 0 <= i < |b| ==> b[i] != ']'
    requires d != [] && AllDigits(d) && FitsU32(d)
    requires IsWordKey(c)
    ensures Many0(PathStep, a + ("[" + b + "]" + (d + ("." + c + ("=" + v)))))
         == Some(([ObjectKey(a), ObjectKey(b), ArrayIndex(DecimalValue(d) as uint32), ObjectKey(c)], "=" + v))
  {
    var y' := "." + c + ("=" + v);
    var y := d + y';
    var z := "[" + b + "]" + y;
    MixedSteps1(b, y, d, y', c, v);
    assert z[0] == '[';
    WordKeyStep(a, z);
    Many0Cons(a + z, ObjectKey(a), z);
    PrependOne(ObjectKey(a), [ObjectKey(b), ArrayIndex(DecimalValue(d) as uint32), ObjectKey(c)]);
  }

  lemma PrependOne(a: PathAccess, rest: seq<PathAccess>)
    requires |rest| == 3
    ensures [a] + rest == [a, rest[0], rest[1], rest[2]]
  {
  }

  /** The token `a[b]d.c=v`, with its pieces grouped as the parser reads them. */
  lemma MixedToken(a: string, b: string, d: string, c: string, v: string)
    ensures a + "[" + b + "]" + d + "." + c + "=" + v == a + ("[" + b + "]" + (d + ("." + c + ("=" + v))))
    ensures a + "[" + b + "]" + d + "." + c + "=" + v == (a + "[" + b + "]" + d + "." + c) + "=" + v
  {
  }

  lemma MixedPrefixNoEquals(a: string, b: string, d: string, c: string)
    requires NoEquals(a) && NoEquals(b) && NoEquals(c) && AllDigits(d)
    ensures NoEquals(a + "[" + b + "]" + d + "." + c)
  {
  }

  /**
   * A path mixing all four spellings, `a[b]d.c=v`, reads as the object key
   * `a`, the object key `b`, the index `d` and the object key `c`, with the
   * string value `v`.
   */
  lemma MixedPath(nameChar: char -> bool, a: string, b: string, d: string, c: string, v: string)
    requires IsWordKey(a)
    requires b != [] && !IsDigit(b[0]) && forall i :: 0 <= i < |b| ==> b[i] != ']' && b[i] != '='
    requires d != [] && AllDigits(d) && FitsU32(d)
    requires IsWordKey(c)
    requires !(|v| >= 2 && v[0] == '=')
    ensures ParseComponentWith(nameChar, a + "[" + b + "]" + d + "." + c + "=" + v)
         == Ok(Body(String([ObjectKey(a), ObjectKey(b), ArrayIndex(DecimalValue(d) as uint32), ObjectKey(c)], v)))
  {
    var p := a + "[" + b + "]" + d + "." + c;
    var s := a + "[" + b + "]" + d + "." + c + "=" + v;
    MixedToken(a, b, d, c, v);
    MixedPrefixNoEquals(a, b, d, c);
    QueryParamAt(p, v);
    MixedSteps(a, b, d, c, v);
    BodyAfterOperator(s, [ObjectKey(a), ObjectKey(b), ArrayIndex(DecimalValue(d) as uint32), ObjectKey(c)], false, v);
    AlternativeOrder(nameChar, s);
  }

  /**
   * `foo[bar]0.qux=quux` has the path `foo`, `bar`, `0`, `qux` and the string
   * value `quux`, whichever header-name class is used. The pieces of the token
   * are parameters fixed by the precondition, so that the proof works on short
   * names instead of unfolding the literal character by character.
   */
  lemma MixedPathExample(nameChar: char -> bool, s: string, a: string, b: string, d: string, c: string, v: string)
    requires a == "foo" && b == "bar" && d == "0" && c == "qux" && v == "quux"
    requires s == a + "[" + b + "]" + d + "." + c + "=" + v
    ensures ParseComponentWith(nameChar, s) == Ok(Body(String([ObjectKey(a), ObjectKey(b), ArrayIndex(0), ObjectKey(c)], v)))
  {
    assert IsWordKey(a) && IsWordKey(c);
    assert !IsDigit(b[0]);
    assert forall i :: 0 <= i < |b| ==> b[i] != ']' && b[i] != '=';
    assert AllDigits(d);
    assert DecimalValue(d) == 0 by {
      assert d[0] == '0' && d[1..] == [];
      assert Accumulate(0, d) == Accumulate(DigitValue(d[0]), d[1..]);
    }
    assert !(|v| >= 2 && v[0] == '=');
    MixedPath(nameChar, a, b, d, c, v);
  }

  /**
   * A class of header-name characters that are all key characters: none is
   * `.`, `[`, `=` or `:`. The class as written and the corrected class both are.
   */
  ghost predicate KeyNameClass(nameChar: char -> bool) {
    forall c :: nameChar(c) ==> IsRawKeyChar(c)
  }

  /**
   * The value after `name:` turns the token into a query parameter: its first
   * `=` is followed by a second `=` and at least one more character.
   */
  predicate ValueMakesQuery(v: string) {
    var k := SpanLength(NotEquals, v);
    k + 2 < |v| && v[k + 1] == '='
  }

  /**
   * `name:value` is a header when the name is made of name characters and the
   * value is non-empty, does not start with `=` and does not contain `==`
   * followed by more text after its first `=`; `Cookie:a=b` is one.
   */
  lemma HeaderRoundTrip(nameChar: char -> bool, n: string, v: string)
    requires IsHeaderName(nameChar, n) && KeyNameClass(nameChar)
    requires v != [] && v[0] != '=' && !ValueMakesQuery(v)
    ensures ParseComponentWith(nameChar, n + ":" + v) == Ok(Header(n, v))
  {
    HeaderNameIsKey(nameChar, n);
    HeaderNotQueryParam(n, v);
    NoBodyAfterColon(n, v);
    HeaderAt(nameChar, n, v);
    AlternativeOrder(nameChar, n + ":" + v);
  }

  /** `name:value`, with a value that does not make a query, is no query parameter. */
  lemma HeaderNotQueryParam(n: string, v: string)
    requires NoEquals(n)
    requires !ValueMakesQuery(v)
    ensures ParseQueryParam(n + ":" + v) == None
  {
    var s := n + ":" + v;
    var k := SpanLength(NotEquals, v);
    if k == |v| {
      assert NoEquals(s);
      QueryParamNoEquals(s);
    } else {
      var x := n + ":" + v[..k];
      assert v[k] == '=';
      assert s == x + "=" + v[k + 1..];
      assert NoEquals(x);
      QueryParamAt(x, v[k + 1..]);
    }
  }

  /**
   * `name:a==w`, with no `=` in `a` and a non-empty `w`, is the query
   * parameter named `name:a` with the value `w`: the query parser runs first.
   */
  lemma HeaderValueMakesQuery(nameChar: char -> bool, n: string, a: string, w: string)
    requires IsHeaderName(nameChar, n) && KeyNameClass(nameChar)
    requires NoEquals(a) && w != []
    ensures ParseComponentWith(nameChar, n + ":" + a + "==" + w) == Ok(QueryParam(n + ":" + a, w))
  {
    HeaderNameIsKey(nameChar, n);
    assert NoEquals(n + ":" + a);
    QueryParamIff(nameChar, n + ":" + a + "==" + w, n + ":" + a, w);
  }

  /**
   * `name:value` is a header exactly when the value is non-empty, does not
   * start with `=` and does not make a query; otherwise it is invalid, a JSON
   * body value or a query parameter.
   */
  lemma HeaderIff(nameChar: char -> bool, n: string, v: string)
    requires IsHeaderName(nameChar, n) && KeyNameClass(nameChar)
    ensures ParseComponentWith(nameChar, n + ":" + v) == Ok(Header(n, v))
        <==> v != [] && v[0] != '=' && !ValueMakesQuery(v)
  {
    var s := n + ":" + v;
    if v != [] && v[0] != '=' && !ValueMakesQuery(v) {
      HeaderRoundTrip(nameChar, n, v);
    } else if v == [] {
      AlternativeOrder(nameChar, s);
    } else if v[0] == '=' {
      var w := v[1..];
      assert s == n + ":=" + w;
      if |w| >= 2 && w[0] == '=' {
        assert s == n + ":" + [] + "==" + w[1..];
        HeaderValueMakesQuery(nameChar, n, [], w[1..]);
      } else {
        JsonBodyBeforeHeader(nameChar, n, w);
      }
    } else {
      var k := SpanLength(NotEquals, v);
      assert s == n + ":" + v[..k] + "==" + v[k + 2..];
      HeaderValueMakesQuery(nameChar, n, v[..k], v[k + 2..]);
    }
  }

  /** Whatever parses as a header is a name, a `:` and a non-empty value, with nothing lost. */
  lemma HeaderShape(nameChar: char -> bool, s: string, n: string, v: string)
    requires ParseComponentWith(nameChar, s) == Ok(Header(n, v))
    ensures s == n + ":" + v && IsHeaderName(nameChar, n) && v != []
  {
    AlternativeOrder(nameChar, s);
  }

  /**
   * The body parser comes before the header parser: `name:=value` with a
   * header name is a JSON body value, not a header whose value starts with `=`.
   */
  lemma JsonBodyBeforeHeader(nameChar: char -> bool, n: string, v: string)
    requires IsHeaderName(nameChar, n) && KeyNameClass(nameChar)
    requires !(|v| >= 2 && v[0] == '=')
    ensures ParseComponentWith(nameChar, n + ":=" + v).Ok?
    ensures ParseComponentWith(nameChar, n + ":=" + v).value.Body?
    ensures ParseComponentWith(nameChar, n + ":=" + v).value.body.JSON?
    ensures ParseComponentWith(nameChar, n + ":=" + v).value.body.value == v
  {
    HeaderNameIsKey(nameChar, n);
    JsonOperatorNotQueryParam(n, v);
    JsonBodyAfterKeys(n, v);
    AlternativeOrder(nameChar, n + ":=" + v);
  }

  /** A header name is also a run of key characters, without `=`. */
  lemma HeaderNameIsKey(nameChar: char -> bool, n: string)
    requires IsHeaderName(nameChar, n) && KeyNameClass(nameChar)
    ensures NoEquals(n) && forall i :: 0 <= i < |n| ==> IsRawKeyChar(n[i])
  {
  }

  /** Both header-name classes are classes of key characters. */
  lemma NameClassesAreKeyClasses()
    ensures KeyNameClass(IsHeaderNameChar) && KeyNameClass(IsHeaderNameCharAsWritten)
  {
  }

  /**
   * A token without `=` whose leading run of name characters is broken by a
   * key character that is not a name character, before the `:`, is rejected by
   * all three alternatives.
   */
  lemma InvalidWhenNameBroken(nameChar: char -> bool, n: string, m: string, v: string)
    requires IsHeaderName(nameChar, n)
    requires m != [] && !nameChar(m[0])
    requires forall i :: 0 <= i < |n + m| ==> IsRawKeyChar((n + m)[i])
    requires NoEquals(v)
    ensures ParseComponentWith(nameChar, n + m + ":" + v) == Err(InvalidComponent)
  {
    var s := n + m + ":" + v;
    NoEqualsBeforeColon(n + m, v);
    QueryParamNoEquals(s);
    NoBodyAfterColon(n + m, v);
    HeaderBroken(nameChar, n, m, v);
    AlternativeOrder(nameChar, s);
  }

  /** Key characters, `:` and a value without `=` hold no `=`. */
  lemma NoEqualsBeforeColon(x: string, v: string)
    requires forall i :: 0 <= i < |x| ==> IsRawKeyChar(x[i])
    requires NoEquals(v)
    ensures NoEquals(x + ":" + v)
  {
  }

  /** A header name broken by a character that is no name character, before the `:`, is no header. */
  lemma HeaderBroken(nameChar: char -> bool, n: string, m: string, v: string)
    requires IsHeaderName(nameChar, n)
    requires m != [] && !nameChar(m[0])
    requires forall i :: 0 <= i < |n + m| ==> IsRawKeyChar((n + m)[i])
    ensures ParseHeaderWith(nameChar, n + m + ":" + v) == None
  {
    assert n + m + ":" + v == n + (m + ":" + v);
    assert (n + m)[|n|] == m[0];
    HeaderFails(nameChar, n, m + ":" + v);
  }

  /**
   * A token that no alternative accepts, such as `foo bar:baz`, is an invalid
   * component, as written and corrected alike. The pieces of the token are
   * parameters fixed by the precondition, so that the proof works on short
   * names instead of unfolding the literal character by character.
   */
  lemma InvalidComponentExample(s: string, n: string, m: string, v: string)
    requires n == "foo" && m == " bar" && v == "baz"
    requires s == n + m + ":" + v
    ensures ParseComponent(s) == Err(InvalidComponent)
    ensures ParseComponentAsWritten(s) == Err(InvalidComponent)
  {
    assert IsHeaderName(IsHeaderNameChar, n) && IsHeaderName(IsHeaderNameCharAsWritten, n);
    assert !IsHeaderNameChar(m[0]) && !IsHeaderNameCharAsWritten(m[0]);
    assert forall i :: 0 <= i < |n + m| ==> IsRawKeyChar((n + m)[i]);
    assert NoEquals(v);
    InvalidWhenNameBroken(IsHeaderNameChar, n, m, v);
    InvalidWhenNameBroken(IsHeaderNameCharAsWritten, n, m, v);
  }

  /**
   * As written, `Authorization:x` is rejected: the name run stops at the `z`,
   * which falls outside the half-open range `'a'..'z'`. Here and below, the
   * pieces of the token are parameters fixed by the precondition, so that the
   * proof works on short names instead of unfolding the literal.
   */
  lemma AuthorizationRejectedAsWritten(s: string, n: string, m: string, v: string)
    requires n == "Authori" && m == "zation" && v == "x"
    requires s == n + m + ":" + v
    ensures ParseComponentAsWritten(s) == Err(InvalidComponent)
  {
    assert IsHeaderName(IsHeaderNameCharAsWritten, n);
    assert !IsHeaderNameCharAsWritten(m[0]);
    assert forall i :: 0 <= i < |n + m| ==> IsRawKeyChar((n + m)[i]);
    assert NoEquals(v);
    InvalidWhenNameBroken(IsHeaderNameCharAsWritten, n, m, v);
  }

  /** With the ranges corrected, `Authorization:x` is the header it was meant to be. */
  lemma AuthorizationAccepted(s: string, n: string, v: string)
    requires n == "Authorization" && v == "x"
    requires s == n + ":" + v
    ensures ParseComponent(s) == Ok(Header(n, v))
  {
    assert IsHeaderName(IsHeaderNameChar, n);
    assert SpanLength(NotEquals, v) == 1;
    NameClassesAreKeyClasses();
    HeaderRoundTrip(IsHeaderNameChar, n, v);
  }

  /** On a token without `Z`, `z` or `9` the code as written and the corrected parser agree. */
  lemma AsWrittenAgrees(s: string)
    requires forall i :: 0 <= i < |s| ==> s[i] != 'Z' && s[i] != 'z' && s[i] != '9'
    ensures ParseComponentAsWritten(s) == ParseComponent(s)
  {
    AlternativeOrder(IsHeaderNameCharAsWritten, s);
    AlternativeOrder(IsHeaderNameChar, s);
    TakeWhile1Agree(IsHeaderNameCharAsWritten, IsHeaderNameChar, s);
  }

  /** `take_while1` with two predicates that agree on every character of the input gives the same result. */
  lemma {:induction false} TakeWhile1Agree(p: char -> bool, q: char -> bool, s: string)
    requires forall i :: 0 <= i < |s| ==> p(s[i]) == q(s[i])
    ensures TakeWhile1(p, s) == TakeWhile1(q, s)
  {
    SpanLengthAgree(p, q, s);
  }

  lemma {:induction false} SpanLengthAgree(p: char -> bool, q: char -> bool, s: string)
    requires forall i :: 0 <= i < |s| ==> p(s[i]) == q(s[i])
    ensures SpanLength(p, s) == SpanLength(q, s)
  {
    if s != [] {
      SpanLengthAgree(p, q, s[1..]);
    }
  }
}
