# get-rs request core, modelled in Dafny

`get` is a command-line HTTP client. It is given a URL and a list of tokens:

- `name==value` adds a query parameter;
- `path=value` writes a string into the JSON body, and `path:=value` writes JSON text;
- `Name:value` adds a header.

This project models the core of that program:

- **The request-component parser.** This is `Parser`, built from `Combinators`. The combinator library is re-modelled by hand on `seq<char>`. It classifies one token and breaks body paths into `ObjectKey`, `ArrayIndex` and `ArrayEnd` steps.
- **The JSON tree writer `put_value`.** This is `JsonBuilder`, with its properties in `JsonBuilderProperties`. It walks a path into a JSON tree and creates what is missing on the way. `PutValue` is a recursive method proved against the reference function `Put`.
- **The URL builder.** This is `UrlBuilding`: the optional URL parts, `new`, `authority`, `build`, and the three-way prefix dispatch of `from_input`. The URL parser itself is a parameter.
- **The decision and merge rules of the request builder.** This is `RequestBuilding`:
  - the scheme choice;
  - the query-string join (the escaping is a parameter);
  - the header replace-merge (`replace_headers`);
  - the rule that raw data and body values exclude each other;
  - the HTTP version.

Rust's `&mut` arguments are modelled as a value passed in and the new value handed back (`PutValue`, `ReplaceHeaders`). The exclusive borrow means nothing else can observe the value in between. Records whose fields the source assigns one by one are classes: `UrlBuilding.UrlBuilder` and `RequestBuilding.RequestBuilder`.

Files:

| file | contents |
|---|---|
| `base.dfy` | `Option`, `Result`, `Outcome`, `uint32` |
| `combinators.dfy` | tag, take_while1, u32, alt, preceded, delimited, separated_pair, value, many0 |
| `parser.dfy` | the request-component parser and its lemmas |
| `json_builder.dfy` | `PathAccess`, `Json`, the reference `Put` and the method `PutValue` |
| `json_builder_properties.dfy` | reachability, shape per step, last write wins, conflicts, siblings unchanged, worked examples |
| `url_builder.dfy` | the URL builder |
| `request_builder.dfy` | the request builder rules |

## Model

| member | source | states |
|---|---|---|
| Combinators.Tag | src/parser.rs:94 | `tag(t)` succeeds exactly when the input starts with `t`, and consumes exactly `t` |
| Combinators.TakeWhile1 | src/parser.rs:111-117 | succeeds exactly when the first character satisfies the predicate; what it takes is non-empty and all of it satisfies the predicate; the rest does not start with such a character; the two parts make up the input |
| Combinators.TakeWhile1Split | src/parser.rs:72 | a run of predicate characters followed by text that does not continue it is exactly what `take_while1` takes |
| Combinators.U32 | src/parser.rs:85-87 | `u32` succeeds exactly when the leading digit run is non-empty and its value fits in 32 bits; it returns that value and the text after the run, so overflow is a failure and not a wrap-around |
| Combinators.U32Split | src/parser.rs:85-87 | a maximal digit run followed by a non-digit reads as its value when it fits, and fails otherwise |
| Combinators.Alt | src/parser.rs:57 | `alt` of two parsers fails exactly when both fail; its result is one alternative's, and the first one's whenever that succeeds |
| Combinators.Alt3 | src/parser.rs:35 | `alt` of three parsers fails exactly when all fail; the first alternative that succeeds decides the result |
| Combinators.Alt3Nested | src/parser.rs:35 | three alternatives behave as the first against the choice between the other two |
| Combinators.AltSwap | src/parser.rs:57 | the order of two alternatives matters only on input that both accept |
| Combinators.Preceded | src/parser.rs:76 | `preceded` succeeds exactly when the second parser succeeds on what the first left, and yields that result |
| Combinators.Delimited | src/parser.rs:75 | `delimited` succeeds exactly when open, inner and close each succeed on what the one before left; it yields the inner value and what close left |
| Combinators.SeparatedPair | src/parser.rs:100 | `separated_pair` succeeds exactly when the three parsers succeed in turn, each on what the one before left; it yields the first and third values and what the third left |
| Combinators.SequenceConsumes | src/parser.rs:75-76 | when each parser reads only a prefix of its input, what `preceded`, `delimited` and `separated_pair` leave is a suffix of the input |
| Combinators.Value | src/parser.rs:57 | `value(v, p)` succeeds exactly when `p` does, yields `v` and leaves what `p` left |
| Combinators.Many0 | src/parser.rs:53 | on success `many0` leaves a rest no longer than its input, on which the step parser fails |
| Combinators.Many0Step | src/parser.rs:53 | a step that shortens the input, followed by what `many0` reads from the rest, is read by `many0` as one more leading item |
| Combinators.DecimalRoundTrip | src/parser.rs:85-87 | reading back the decimal spelling of a number gives the number |
| Parser.ParseObjectKey | src/parser.rs:71-81 | `object_key` yields a non-empty `ObjectKey` and a strictly shorter suffix of its input |
| Parser.ParseArrayIndex | src/parser.rs:83-91 | `array_index` yields an `ArrayIndex` and a strictly shorter suffix of its input |
| Parser.ParseArrayEnd | src/parser.rs:93-96 | `array_end` succeeds exactly on input starting with `[]`, and yields `ArrayEnd` and the text after it |
| Parser.PathStep | src/parser.rs:53 | a path step that succeeds leaves a strictly shorter suffix |
| Parser.QueryParamKey | src/parser.rs:111-113 | the key is the non-empty text before the first `=`; it fails exactly on empty input or input starting with `=` |
| Parser.QueryParamValue | src/parser.rs:115-117 | the value is the whole rest of the input, and it fails exactly when that is empty |
| Parser.HeaderValue | src/parser.rs:141-143 | the value is the whole rest of the input, and it fails exactly when that is empty |
| Parser.IsHeaderNameCharAsWritten | src/parser.rs:131-139 | a character passes the half-open ranges exactly when it is an ASCII letter, digit, `_` or `-` other than `Z`, `z` and `9` |
| Parser.ParseBody | src/parser.rs:50-69 | `body` leaves no remainder, yields a body value, and the operator followed by the value is the end of the input |
| Parser.ParseQueryParam | src/parser.rs:98-117 | on success the input is `name + "==" + value`, with a non-empty name without `=`, a non-empty value, and no remainder |
| Parser.ParseHeaderWith | src/parser.rs:119-143 | on success the input is `name + ":" + value`, with a name made of name characters, a non-empty value, and no remainder |
| Parser.ParseComponentWith | src/parser.rs:34-48 | `parse_component` never reports "Remainder found": every alternative consumes the whole token |
| Parser.ParseComponentAsWritten | src/parser.rs:34-48 | `parse_component` as written never reports "Remainder found", and every header it accepts is its name, `:` and a non-empty value, with a name free of `Z`, `z` and `9` |
| Parser.AlternativeOrder | src/parser.rs:35-47 | query parameter, body and header are tried in that order; the first that succeeds is the result, and a token none accepts is an invalid component |
| Parser.PathStepsAlwaysSucceed | src/parser.rs:53 | `many0` over path steps never fails, because every successful step consumes input; what is left is a suffix of the input |
| Parser.StepStops | src/parser.rs:53 | no path step starts at the end of the input, at `=` or at `:` |
| Parser.StepArrayEnd | src/parser.rs:93-96 | `[]` is an `ArrayEnd` step |
| Parser.BracketedIndexIff | src/parser.rs:85 | `[k]` is read as an index exactly when `k` is a non-empty decimal number that fits in 32 bits |
| Parser.StepBracketIndex | src/parser.rs:83-91 | `[digits]` whose value fits in 32 bits is an `ArrayIndex` step with that value |
| Parser.StepBracketKey | src/parser.rs:71-91 | any other non-empty `[key]`, including digits that overflow, is an `ObjectKey` step |
| Parser.StepBareIndex | src/parser.rs:87 | bare digits that fit are an `ArrayIndex` step |
| Parser.StepDotIndex | src/parser.rs:86 | `.digits` that fit are an `ArrayIndex` step |
| Parser.StepBareKey | src/parser.rs:72-77 | a bare key, ended by `.`, `[`, `=`, `:` or the end, is an `ObjectKey` step unless it starts with digits that fit in 32 bits |
| Parser.StepDotKey | src/parser.rs:76 | `.key` is an `ObjectKey` step on the same terms |
| Parser.StepInRawRun | src/parser.rs:53-91 | one step into a run of key characters consumes a non-empty prefix of the run |
| Parser.RawRunConsumed | src/parser.rs:53 | the path steps consume a whole run of key characters and stop at the operator, `:` or the end after it |
| Parser.StepRoundTrip | src/parser.rs:71-96 | the bracket form of a step reads back as that step |
| Parser.PathRoundTrip | src/parser.rs:53 | the bracket form of a whole path reads back as that path, stopping at the operator |
| Parser.ReadsBack | src/parser.rs:53 | `many0` over any step parser that reads every rendered step back reads a whole rendered path back |
| Parser.QueryParamIff | src/parser.rs:98-117 | for either header-name class, a token parses as `QueryParam(k, v)` exactly when it is `k + "==" + v` with `k` non-empty and free of `=` and `v` non-empty; `v` is kept verbatim |
| Parser.QueryParamAt | src/parser.rs:98-113 | after a key and a first `=`, the token is a query parameter exactly when a second `=` and at least one more character follow |
| Parser.EmptyQueryValueIsBody | src/parser.rs:115-117 | for either header-name class and a plain key (raw key characters, not starting with a number that fits in 32 bits), `key==` has an empty query value, so it falls through to `body`: the string `=` at the path `[ObjectKey(key)]` |
| Parser.BodyAfterSteps | src/parser.rs:53-68 | once the path steps stop, `:=` gives a JSON value, `=` a string value, and anything else no body |
| Parser.BodyAfterOperator | src/parser.rs:57-68 | after the path steps, `:=` yields `JSON` and `=` yields `String`, and the value is all the rest of the input |
| Parser.BodyRoundTrip | src/parser.rs:50-69 | for either header-name class, a path in bracket form, an operator and a value (possibly empty) parse back as that body value, unless the value makes the token a query parameter |
| Parser.EmptyPathBody | src/parser.rs:50-68 | for either header-name class, `=x` is the string `x` at the empty path, for every `x`: with no key before it, even `==y` is the string `=y` |
| Parser.JsonBodyAfterKeys | src/parser.rs:53-61 | key characters followed by `:=` are a JSON body value holding everything after the operator |
| Parser.NoBodyAfterColon | src/parser.rs:53-57 | key characters followed by `:` and anything but `=` are not a body value |
| Parser.MixedPath | src/parser.rs:53-91 | for either header-name class, `a[b]d.c=v` reads as the keys `a` and `b`, the index `d` and the key `c`, with the string value `v` |
| Parser.MixedPathExample | src/parser.rs:53-91 | for either header-name class, `foo[bar]0.qux=quux` has the path `foo`, `bar`, `0`, `qux` |
| Parser.HeaderAt | src/parser.rs:119-129 | a header name, `:` and a non-empty value are a header |
| Parser.HeaderFails | src/parser.rs:120-139 | a run of name characters stopped by anything but `:` is not a header |
| Parser.HeaderRoundTrip | src/parser.rs:119-143 | for either header-name class, `name:value` with a valid name is `Header(name, value)`, with the value kept verbatim, when the value is non-empty, does not start with `=` and its first `=` is not followed by `=` and more text; `Cookie:a=b` is one |
| Parser.HeaderNotQueryParam | src/parser.rs:98-113 | `name:value` is no query parameter unless the first `=` of the value is followed by `=` and more text |
| Parser.HeaderValueMakesQuery | src/parser.rs:35 | for either header-name class, `name:a==w` with no `=` in `a` and a non-empty `w` is the query parameter `name:a` with the value `w`, because `query_param` is tried first |
| Parser.HeaderIff | src/parser.rs:35-143 | for either header-name class, `name:value` is `Header(name, value)` exactly when the value is non-empty, does not start with `=` and does not make the token a query parameter |
| Parser.HeaderShape | src/parser.rs:119-143 | for either header-name class, whatever parses as a header is its name, `:` and its non-empty value, with nothing lost |
| Parser.JsonBodyBeforeHeader | src/parser.rs:35 | for either header-name class, `Name:=value` is a JSON body value and not a header, because `body` is tried before `header` |
| Parser.InvalidWhenNameBroken | src/parser.rs:44-46 | a token without `=` whose name run is broken before the `:` is rejected by all three alternatives |
| Parser.InvalidComponentExample | src/parser.rs:44-46 | `foo bar:baz` is an invalid component, as written and corrected alike |
| Parser.AuthorizationRejectedAsWritten | src/parser.rs:131-139 | with the half-open ranges as written, `Authorization:x` is an invalid component |
| Parser.AuthorizationAccepted | src/parser.rs:131-139 | with the ranges inclusive, `Authorization:x` is the header `Authorization` with the value `x` |
| Parser.AsWrittenAgrees | src/parser.rs:131-139 | on tokens without `Z`, `z` or `9` the parser as written and the corrected parser agree |
| JsonBuilder.Nulls | src/json_builder.rs:38 | the padding `resize` adds is `n` copies of `null` |
| JsonBuilder.Put | src/json_builder.rs:11-53 | an empty path replaces the node with the value; writing below `null` never fails; a successful write leaves at the root the object or array that the first step needs |
| JsonBuilder.PutValue | src/json_builder.rs:11-53 | `put_value` succeeds exactly when `Put` does and then returns `Put`'s tree; on an error the node is returned unchanged with `Put`'s error |
| JsonBuilder.PutObjectKey | src/json_builder.rs:18-27 | the `ObjectKey` arm, proved against `Put` in the same terms |
| JsonBuilder.PutArrayIndex | src/json_builder.rs:28-42 | the `ArrayIndex` arm, proved against `Put` in the same terms |
| JsonBuilder.PutArrayEnd | src/json_builder.rs:43-52 | the `ArrayEnd` arm, proved against `Put` in the same terms |
| JsonBuilderProperties.PutReaches | src/json_builder.rs:11-53 | after a successful write, following the path in the new tree reaches the value, with `ArrayEnd` read as the index it was given |
| JsonBuilderProperties.PutObjectKeyShape | src/json_builder.rs:18-26 | `null` becomes `{}`; another non-object fails with "expect object root"; the key is added when missing; every other member is unchanged |
| JsonBuilderProperties.PutArrayIndexShape | src/json_builder.rs:28-41 | `null` becomes `[]`; a non-array fails; the length becomes `max(len, i + 1)` with `null` padding; every other element is unchanged |
| JsonBuilderProperties.PutArrayEndShape | src/json_builder.rs:43-51 | `null` becomes `[]`; a non-array fails and nothing else does; the length grows by exactly one; the earlier elements are unchanged |
| JsonBuilderProperties.LastWriteWins | src/json_builder.rs:12-41 | a second write along an `ArrayEnd`-free path gives the tree the second write alone gives |
| JsonBuilderProperties.PutIdempotent | src/json_builder.rs:12-41 | repeating a write along an `ArrayEnd`-free path changes nothing |
| JsonBuilderProperties.PutFailsOnlyOnConflict | src/json_builder.rs:19-48 | a write fails exactly when some step meets a node that was already in the tree and is neither `null` nor of the kind the step needs; the error names the kind that step expected |
| JsonBuilderProperties.PutLeavesOthersUnchanged | src/json_builder.rs:17-52 | every node of the old tree off the written path is still there, unchanged |
| JsonBuilderProperties.SparseArrayExample | src/json_builder.rs:28-41 | `[ArrayIndex 1]` with `"foo"` on `null` gives `[null, "foo"]` |
| JsonBuilderProperties.MixedNestingExample | src/json_builder.rs:17-52 | `[ArrayEnd, foo, bar, ArrayEnd, 1, baz]` with `"qux"` on `null` gives `[{"foo":{"bar":[[null,{"baz":"qux"}]]}}]` |
| JsonBuilderProperties.AppendThenIndexExample | src/json_builder.rs:28-51 | an append, then writes at index 1 and index 2, fill the same array in turn |
| JsonBuilderProperties.TypeConflictExample | src/json_builder.rs:43-48 | appending to a member that already holds a string fails with "expect array root" |
| UrlBuilding.AuthorityOf | src/url_builder.rs:24-36 | the authority fails exactly when there is no hostname; it is the hostname alone without a port, and `hostname + ":" + port` with one |
| UrlBuilding.AuthoritySplits | src/url_builder.rs:28-33 | a hostname without `:` and the port are recovered from the authority |
| UrlBuilding.BuildUrl | src/url_builder.rs:41-52 | `build` checks the scheme first, then the hostname, then the path, and succeeds exactly when all three are present |
| UrlBuilding.BuildRoundTrip | src/url_builder.rs:41-52 | reading back a built URL gives the parts it was built from: the port appears exactly when there is one, and the `?` exactly when there is a query |
| UrlBuilding.EmptyQueryKeepsMark | src/url_builder.rs:45-51 | a present but empty query still ends the URL with `?` |
| UrlBuilding.PortText | src/url_builder.rs:68 | a port becomes text exactly when there is one, and that text is decimal digits |
| UrlBuilding.InputParts | src/url_builder.rs:60-95 | the parts `from_input` fills in: a parser failure is an error; only a complete URL sets the scheme; `:`-prefixed input takes the fallback hostname; otherwise a missing host is an error; hostname and path are always set |
| UrlBuilding.UrlBuilder.constructor | src/url_builder.rs:98-106 | `new` leaves all five parts empty |
| UrlBuilding.UrlBuilder.Authority | src/url_builder.rs:24-36 | the string built step by step is `AuthorityOf` the builder's hostname and port |
| UrlBuilding.UrlBuilder.Build | src/url_builder.rs:41-52 | `build` succeeds exactly when scheme, hostname and path are set, and otherwise fails on the first missing one in that order; for separable parts the URL reads back as the builder's parts |
| UrlBuilding.UrlBuilder.FromInput | src/url_builder.rs:60-95 | the builder filled in field by field holds exactly `InputParts`, and fails with `InputParts`'s error |
| RequestBuilding.GetScheme | src/request_builder.rs:134-144 | the session's scheme wins whatever the hostname; otherwise `http` exactly for the listed hostnames and `https` for the rest |
| RequestBuilding.SplitJoin | src/request_builder.rs:66-75 | pieces without the separator are recovered from their join |
| RequestBuilding.EncodePairs | src/request_builder.rs:66-70 | the serializer loop writes each pair as `key=value`, joined by `&` |
| RequestBuilding.QueryAppendsPairs | src/request_builder.rs:72-75 | adding pairs keeps every earlier part of the query in order and appends one `key=value` part per pair in order |
| RequestBuilding.RequestBuilder.AddQuery | src/request_builder.rs:61-78 | no pairs leave the query unchanged; otherwise the encoded pairs follow the old query and `&` when it is non-empty, and replace an absent or empty one; the other URL parts are unchanged |
| RequestBuilding.ReplaceHeaders | src/request_builder.rs:154-181 | the loop over the consumed header map, carrying the last entry, computes `Replay` of all its items |
| RequestBuilding.ReplaceHeadersMerges | src/request_builder.rs:154-181 | replaying a header map onto `dst` gives the map union `dst + src` |
| RequestBuilding.SourceValuesWin | src/request_builder.rs:163-176 | after the merge each name of `src` has exactly `src`'s values, in order |
| RequestBuilding.OtherNamesKept | src/request_builder.rs:154-181 | after the merge a name that `src` lacks keeps its `dst` values, or stays absent |
| RequestBuilding.RequestBuilder.MergeHeaders | src/request_builder.rs:81-89 | the headers become `old + src`, so an empty map leaves them unchanged; nothing else changes |
| RequestBuilding.BodyAfter | src/request_builder.rs:92-106 | data and body values together are an error; data becomes the body; values become `build`'s document or fail with it; neither leaves the body as it was |
| RequestBuilding.RequestBuilder.AddData | src/request_builder.rs:92-106 | the body after the call is `BodyAfter`'s, or unchanged on an error; nothing else changes |
| RequestBuilding.RequestBuilder.SetVersion | src/request_builder.rs:109-112 | the version is the given one; nothing else changes |
| RequestBuilding.RequestBuilder.constructor | src/request_builder.rs:52-57 | a request starts with the given URL and headers, no body and the default version |

## Left out

- `RequestBuilder::send` is not modelled: it is network I/O through reqwest and async code.
- The rest of `RequestBuilder::from_input` is left out: loading the session, filling in a missing scheme and the `Host` header. It depends on the session store on disk. `GetScheme` models the scheme rule, and the constructor models the final record.
- `add_header` (header name and value validation) is left out: that validation belongs to the `http` crate.
- `src/session.rs`, `src/config.rs`, `src/cli.rs` and `src/main.rs` are left out. They are file I/O, deserialisation and argument-parsing glue. `Scheme::as_str` is inlined as `SchemeName`.
- `json_builder::build` is not part of this model. It is the parameter `build` of `AddData`, and multi-token behaviour is stated as sequences of `Put` calls.
- The `url` crate's parser is the parameter `parse` of `FromInput`. Its normalisation of hosts and paths, and its dropping of a scheme's default port, are therefore not modelled.
- The `form_urlencoded` escaping of keys and values is the parameter `escape`. `QueryAppendsPairs` requires only that it never writes `&` or `=`.
- JSON numbers and JSON text are opaque strings: serde_json parsing and serialisation are not modelled. Object member order is not modelled (members are a `map`).
- Header names are taken as already normalised: `HeaderName` case folding is not modelled. Headers are a map from name to its values in order.
- `PutValue`: the mutation in place through `&mut Value` is modelled as the node passed in and the new node handed back. The exclusive borrow means no other reference can observe the difference.
- `ReplaceHeaders`: the `HeaderMap` into-iterator is modelled as the sequence of `(Option<name>, value)` items it yields. An unnamed item before any named one, which the iterator never yields, is excluded by the precondition.
- `RequestBuilding.RequestBuilder.AddData`: on an error the Rust method drops the builder; the model keeps the old state.
- `Parser.BodyRoundTrip`, `Parser.PathRoundTrip`, `UrlBuilding.BuildRoundTrip`: each round trip is proved under sufficient conditions that keep the pieces separable (bracket-form paths whose keys hold no `]` or `=`; URL parts without their separators). They are not an exact characterisation of the inputs that round-trip.
- Text is `seq<char>`; byte encodings and Unicode details are not modelled.

## Findings

| source | as written | input that shows it | evidently intended | confidence | as-written member | corrected member |
|---|---|---|---|---|---|---|
| src/parser.rs:131-139 | header-name characters are tested with the half-open ranges `'A'..'Z'`, `'a'..'z'` and `'0'..'9'`, which exclude `Z`, `z` and `9` | `Authorization:x` is rejected as an invalid component | the inclusive ranges `'A'..='Z'`, `'a'..='z'`, `'0'..='9'`, accepting every ASCII letter and digit | not executed | Parser.AuthorizationRejectedAsWritten | Parser.AuthorizationAccepted |

The as-written predicate is `Parser.IsHeaderNameCharAsWritten`, used by `Parser.ParseComponentAsWritten`. The corrected parser is `Parser.ParseComponent`. Both are instances of `Parser.ParseComponentWith`, and the component lemmas are stated for any header-name class, so they cover the code as written and the corrected code alike. The two parsers differ only in which headers they accept: `Parser.AuthorizationRejectedAsWritten` and `Parser.AuthorizationAccepted` show the difference on `Authorization:x`, and `Parser.AsWrittenAgrees` shows that they agree on every token without `Z`, `z` or `9`.
