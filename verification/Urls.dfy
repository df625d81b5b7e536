/** Carrier-neutral repository URLs: crates/styrene-git-remote/src/lib.rs. */
module Urls {
  import opened Basics
  import opened Order
  import opened Rendering
  import opened Splitting
  import opened Text

  const URL_PREFIX := "styrene:///git/v1/"
  const MAX_ROUTING_LABELS := 16
  const MAX_ROUTING_LABEL_BYTES := 64

  datatype View = Canonical | Publisher(publisher: Bytes)

  datatype GitRemoteUrl = GitRemoteUrl(repository: Bytes, view: View, labels: seq<string>)

  datatype UrlError =
    | InvalidSchemeOrPath
    | AuthorityNotAllowed
    | InvalidPath
    | InvalidRepository
    | InvalidPublisher
    | FragmentNotAllowed
    | InvalidQuery
    | UnsupportedQueryKey
    | InvalidLabel
    | LabelsNotSortedUnique
    | TooManyLabels

  /// Routing labels

  predicate LabelChar(c: char) {
    'a' <= c <= 'z' || '0' <= c <= '9' || c == '-'
  }

  predicate ValidLabel(tag: string) {
    && tag != "" && |tag| <= MAX_ROUTING_LABEL_BYTES
    && 'a' <= tag[0] <= 'z'
    && forall i :: 0 <= i < |tag| ==> LabelChar(tag[i])
  }

  predicate SortedLabels(labels: seq<string>) {
    forall i, j :: 0 <= i && j == i + 1 < |labels| ==> TextLess(labels[i], labels[j])
  }

  predicate AllLabels(labels: seq<string>) {
    forall i :: 0 <= i < |labels| ==> ValidLabel(labels[i])
  }

  predicate ValidLabels(labels: seq<string>) {
    && |labels| <= MAX_ROUTING_LABELS
    && SortedLabels(labels)
    && AllLabels(labels)
  }

  const LABEL_KEY := "label="

  function ParseField(field: string): Result<string, UrlError> {
    if !StartsWith(field, LABEL_KEY) then Err(UnsupportedQueryKey)
    else if !ValidLabel(field[|LABEL_KEY|..]) then Err(InvalidLabel)
    else Ok(field[|LABEL_KEY|..])
  }

  /** Every field parsed, or the first error. */
  function ParseFields(fields: seq<string>): (r: Result<seq<string>, UrlError>) {
    if fields == [] then Ok([])
    else
      var first :- ParseField(fields[0]);
      var rest :- ParseFields(fields[1..]);
      Ok([first] + rest)
  }

  function ParseLabels(query: Option<string>): Result<seq<string>, UrlError> {
    if query.None? then Ok([])
    else if query.value == "" then Err(InvalidQuery)
    else
      var labels :- ParseFields(Split(query.value, '&'));
      if |labels| > MAX_ROUTING_LABELS then Err(TooManyLabels)
      else if !SortedLabels(labels) then Err(LabelsNotSortedUnique)
      else Ok(labels)
  }

  /// Parsing and printing

  function ParseView(segments: seq<string>): Result<(string, View), UrlError> {
    if |segments| == 1 && segments[0] != "" then Ok((segments[0], Canonical))
    else if |segments| == 3 && segments[1] == "publisher" && segments[0] != "" && segments[2] != "" then
      var publisher := FromHex(segments[2]);
      if publisher.Err? then Err(InvalidPublisher) else Ok((segments[0], Publisher(publisher.value)))
    else Err(InvalidPath)
  }

  function PathAndQuery(value: string): (string, Option<string>) {
    var cut := SplitOnce(value, '?');
    if cut.None? then (value, None) else (cut.value.0, Some(cut.value.1))
  }

  /** `GitRemoteUrl::from_str`. */
  function Parse(value: string): Result<GitRemoteUrl, UrlError> {
    if '#' in value then Err(FragmentNotAllowed)
    else if StartsWith(value, "styrene://") && !StartsWith(value, "styrene:///") then Err(AuthorityNotAllowed)
    else if !StartsWith(value, URL_PREFIX) then Err(InvalidSchemeOrPath)
    else
      var (path, query) := PathAndQuery(value[|URL_PREFIX|..]);
      var (digest, view) :- ParseView(Split(path, '/'));
      var repository := ParseRepository(REPOSITORY_PREFIX + digest);
      if repository.Err? then Err(InvalidRepository)
      else
        var labels :- ParseLabels(query);
        Ok(GitRemoteUrl(repository.value, view, labels))
  }

  function LabelsText(labels: seq<string>): string {
    if labels == [] then ""
    else
      var n := |labels| - 1;
      LabelsText(labels[..n]) + (if n == 0 then "?" else "&") + LABEL_KEY + labels[n]
  }

  /** What the constructor establishes and the private fields keep. */
  predicate ValidUrl(url: GitRemoteUrl) {
    && |url.repository| == 32
    && (url.view.Publisher? ==> |url.view.publisher| == 16)
    && ValidLabels(url.labels)
  }

  function PathText(repository: Bytes, view: View): string
    requires |repository| == 32
  {
    Base32(repository) + (if view.Publisher? then "/publisher/" + Hex(view.publisher) else "")
  }

  /** `Display` for `GitRemoteUrl`. */
  function Display(url: GitRemoteUrl): string
    requires |url.repository| == 32
  {
    URL_PREFIX + PathText(url.repository, url.view) + LabelsText(url.labels)
  }

  /// Labels, read and written

  function Fields(labels: seq<string>): (fields: seq<string>)
    ensures |fields| == |labels|
    ensures forall i :: 0 <= i < |labels| ==> fields[i] == LABEL_KEY + labels[i]
  {
    seq(|labels|, i requires 0 <= i < |labels| => LABEL_KEY + labels[i])
  }

  function QueryOf(labels: seq<string>): Option<string> {
    if labels == [] then None else Some(Join(Fields(labels), '&'))
  }

  lemma {:induction false} JoinLast(parts: seq<string>, last: string, c: char)
    requires parts != []
    ensures Join(parts + [last], c) == Join(parts, c) + [c] + last
  {
    if |parts| == 1 {
      assert (parts + [last])[1..] == [last];
    } else {
      assert (parts + [last])[1..] == parts[1..] + [last];
      JoinLast(parts[1..], last, c);
    }
  }

  lemma FieldsLast(labels: seq<string>)
    requires labels != []
    ensures Fields(labels) == Fields(labels[..|labels| - 1]) + [LABEL_KEY + labels[|labels| - 1]]
  {
  }

  lemma Regroup(a: string, c: char, key: string, tag: string)
    ensures a + [c] + (key + tag) == a + [c] + key + tag
    ensures "?" + (a + [c] + (key + tag)) == "?" + a + [c] + key + tag
  {
    assert "?" + (a + [c] + (key + tag)) == "?" + a + [c] + (key + tag);
  }

  /** The loop over the labels prints `?` and the joined fields. */
  lemma {:induction false} LabelsTextIs(labels: seq<string>)
    ensures LabelsText(labels) == if labels == [] then "" else "?" + Join(Fields(labels), '&')
  {
    hide Fields;
    if labels != [] {
      var n := |labels| - 1;
      FieldsLast(labels);
      if n > 0 {
        LabelsTextIs(labels[..n]);
        JoinLast(Fields(labels[..n]), LABEL_KEY + labels[n], '&');
        Regroup(Join(Fields(labels[..n]), '&'), '&', LABEL_KEY, labels[n]);
      }
    }
  }

  lemma ParseFieldExact(field: string, tag: string)
    ensures ParseField(field) == Ok(tag) <==> ValidLabel(tag) && field == LABEL_KEY + tag
  {
    if StartsWith(field, LABEL_KEY) {
      assert field == LABEL_KEY + field[|LABEL_KEY|..];
    }
    assert (LABEL_KEY + tag)[|LABEL_KEY|..] == tag;
  }

  lemma AllLabelsFirst(labels: seq<string>)
    requires labels != []
    ensures AllLabels(labels) <==> ValidLabel(labels[0]) && AllLabels(labels[1..])
  {
    hide ValidLabel;
    assert forall i :: 0 < i < |labels| ==> labels[i] == labels[1..][i - 1];
  }

  lemma FieldsFirst(fields: seq<string>, labels: seq<string>)
    requires fields != [] && labels != []
    ensures fields == Fields(labels) <==> fields[0] == LABEL_KEY + labels[0] && fields[1..] == Fields(labels[1..])
  {
    assert fields == [fields[0]] + fields[1..];
    assert Fields(labels) == [LABEL_KEY + labels[0]] + Fields(labels[1..]);
  }

  lemma {:induction false} ParseFieldsExact(fields: seq<string>, labels: seq<string>)
    ensures ParseFields(fields) == Ok(labels) <==> fields == Fields(labels) && AllLabels(labels)
  {
    hide ParseField, ValidLabel;
    if fields != [] && labels != [] {
      hide AllLabels;
      ParseFieldExact(fields[0], labels[0]);
      ParseFieldsExact(fields[1..], labels[1..]);
      FieldsFirst(fields, labels);
      AllLabelsFirst(labels);
      assert labels == [labels[0]] + labels[1..];
    }
  }

  lemma FieldsHoldNoSeparator(labels: seq<string>)
    requires ValidLabels(labels)
    ensures forall f :: f in Fields(labels) ==> '&' !in f && '?' !in f && '#' !in f && '/' !in f
  {
    forall f | f in Fields(labels)
      ensures '&' !in f && '?' !in f && '#' !in f && '/' !in f
    {
      var i :| 0 <= i < |labels| && f == LABEL_KEY + labels[i];
      assert ValidLabel(labels[i]);
    }
  }

  /** A query is read as `labels` exactly when it is how valid labels are written. */
  lemma ParseLabelsExact(query: Option<string>, labels: seq<string>)
    ensures ParseLabels(query) == Ok(labels) <==> ValidLabels(labels) && query == QueryOf(labels)
  {
    if query.Some? {
      hide ValidLabel, SortedLabels;
      var parts := Split(query.value, '&');
      ParseFieldsExact(parts, labels);
      JoinSplit(query.value, '&');
      if ValidLabels(labels) && query == QueryOf(labels) {
        FieldsHoldNoSeparator(labels);
        SplitJoin(Fields(labels), '&');
        assert Fields(labels)[0] == LABEL_KEY + labels[0];
      }
    }
  }

  /// The path

  lemma Base32Plain(digest: Bytes)
    requires |digest| == 32
    ensures forall c :: c in Base32(digest) ==> LowerBase32(c)
  {
    ParseRepositoryExact(RepositoryText(digest), digest);
    AcceptedDigests(Base32(digest));
  }

  predicate HexChar(c: char) {
    '0' <= c <= '9' || 'a' <= c <= 'f'
  }

  lemma HexPlain(bytes: Bytes)
    ensures forall c :: c in Hex(bytes) ==> HexChar(c)
  {
    var s := Hex(bytes);
    HexDigitsRange(bytes);
    forall i | 0 <= i < |s|
      ensures HexChar(s[i])
    {
      assert HexDigits(bytes)[i] in HexDigits(bytes);
      HexSymbolPlain(HexDigits(bytes)[i]);
    }
  }

  lemma HexSymbolPlain(k: nat)
    requires k < |HEX_DIGITS|
    ensures HexChar(HEX_DIGITS[k])
  {
  }

  /** The segments a path is printed as. */
  function Segments(repository: Bytes, view: View): seq<string>
    requires |repository| == 32
  {
    if view.Publisher? then [Base32(repository), "publisher", Hex(view.publisher)] else [Base32(repository)]
  }

  lemma PathTextJoins(repository: Bytes, view: View)
    requires |repository| == 32
    ensures PathText(repository, view) == Join(Segments(repository, view), '/')
    ensures forall s :: s in Segments(repository, view) ==> '/' !in s && '?' !in s && '#' !in s
  {
    hide Base32, Hex;
    Base32Plain(repository);
    if view.Publisher? {
      HexPlain(view.publisher);
      var segments := Segments(repository, view);
      assert segments[1..][1..] == [Hex(view.publisher)];
      assert Join(segments[1..], '/') == "publisher" + ['/'] + Hex(view.publisher);
      assert "/publisher/" == ['/'] + "publisher" + ['/'];
    }
  }

  predicate ValidView(view: View) {
    view.Publisher? ==> |view.publisher| == 16
  }

  /** Segments are read as this view and digest text exactly when they are how it is printed. */
  lemma ParseViewExact(segments: seq<string>, repository: Bytes, view: View)
    requires |repository| == 32
    ensures ParseView(segments) == Ok((Base32(repository), view)) <==>
            ValidView(view) && segments == Segments(repository, view)
  {
    hide Base32, Hex, FromHex;
    if view.Publisher? && |segments| == 3 {
      FromHexExact(segments[2], view.publisher);
    }
  }

  /** The path, query and view of a URL whose digest text is good. */
  function ParsePath(value: string): Result<(Bytes, View, Option<string>), UrlError> {
    var (path, query) := PathAndQuery(value);
    var (digest, view) :- ParseView(Split(path, '/'));
    var repository := ParseRepository(REPOSITORY_PREFIX + digest);
    if repository.Err? then Err(InvalidRepository) else Ok((repository.value, view, query))
  }

  function QueryText(query: Option<string>): string {
    if query.None? then "" else "?" + query.value
  }

  lemma PathAndQueryExact(value: string, path: string, query: Option<string>)
    ensures PathAndQuery(value) == (path, query) <==> '?' !in path && value == path + QueryText(query)
  {
    if query.Some? {
      SplitOnceIs(value, '?', path, query.value);
      assert path + ['?'] + query.value == path + QueryText(query);
    } else {
      SplitOnceIs(value, '?', "", "");
      assert path + QueryText(query) == path;
    }
    var cut := SplitOnce(value, '?');
    if cut.Some? {
      SplitOnceIs(value, '?', cut.value.0, cut.value.1);
    }
  }

  lemma {:induction false} JoinHolds(parts: seq<string>, separator: char, c: char)
    requires parts != []
    ensures c in Join(parts, separator) <==> (c == separator && |parts| > 1) || exists p :: p in parts && c in p
  {
    if |parts| == 1 {
      assert parts[0] in parts;
    } else {
      JoinHolds(parts[1..], separator, c);
      assert forall p :: p in parts <==> p == parts[0] || p in parts[1..];
    }
  }

  lemma ParsePathExact(value: string, repository: Bytes, view: View, query: Option<string>)
    ensures ParsePath(value) == Ok((repository, view, query)) <==>
            && |repository| == 32 && ValidView(view)
            && value == PathText(repository, view) + QueryText(query)
  {
    hide Base32, Hex, FromHex, ParseRepository, ParseView, PathAndQuery, PathText;
    var (path, query') := PathAndQuery(value);
    PathAndQueryExact(value, path, query');
    if |repository| == 32 && ValidView(view) && value == PathText(repository, view) + QueryText(query) {
      PathTextJoins(repository, view);
      JoinHolds(Segments(repository, view), '/', '?');
      PathAndQueryExact(value, PathText(repository, view), query);
      SplitJoin(Segments(repository, view), '/');
      ParseViewExact(Segments(repository, view), repository, view);
      ParseRepositoryExact(RepositoryText(repository), repository);
    }
    if ParsePath(value) == Ok((repository, view, query)) {
      var digest := ParseView(Split(path, '/')).value.0;
      ParseRepositoryExact(REPOSITORY_PREFIX + digest, repository);
      assert (REPOSITORY_PREFIX + digest)[|REPOSITORY_PREFIX|..] == digest;
      assert RepositoryText(repository)[|REPOSITORY_PREFIX|..] == Base32(repository);
      ParseViewExact(Split(path, '/'), repository, view);
      PathTextJoins(repository, view);
      JoinSplit(path, '/');
    }
  }

  /// Both round trips

  lemma DisplayIs(url: GitRemoteUrl)
    requires |url.repository| == 32
    ensures Display(url) == URL_PREFIX + (PathText(url.repository, url.view) + QueryText(QueryOf(url.labels)))
  {
    hide PathText;
    LabelsTextIs(url.labels);
  }

  lemma PrefixPlain(rest: string)
    requires '#' !in rest
    ensures '#' !in URL_PREFIX + rest && StartsWith(URL_PREFIX + rest, URL_PREFIX)
    ensures StartsWith(URL_PREFIX + rest, "styrene:///")
  {
    assert URL_PREFIX[..11] == "styrene:///";
    assert (URL_PREFIX + rest)[..11] == URL_PREFIX[..11];
  }

  lemma DisplayPlain(url: GitRemoteUrl)
    requires ValidUrl(url)
    ensures '#' !in Display(url) && StartsWith(Display(url), URL_PREFIX)
    ensures StartsWith(Display(url), "styrene:///")
  {
    hide Base32, Hex, ValidLabels, PathText, QueryOf, Display, StartsWith;
    DisplayIs(url);
    PathTextJoins(url.repository, url.view);
    JoinHolds(Segments(url.repository, url.view), '/', '#');
    QueryPlain(url.labels);
    PrefixPlain(PathText(url.repository, url.view) + QueryText(QueryOf(url.labels)));
  }

  lemma QueryPlain(labels: seq<string>)
    requires ValidLabels(labels)
    ensures '#' !in QueryText(QueryOf(labels))
  {
    if labels != [] {
      FieldsHoldNoSeparator(labels);
      JoinHolds(Fields(labels), '&', '#');
    }
  }

  /**
   A text is read as `url` exactly when `url` is well formed and the text is how it prints.  So printing
   and parsing gives the URL back, and an accepted text prints back byte for byte.
   */
  lemma ParseExact(value: string, url: GitRemoteUrl)
    ensures Parse(value) == Ok(url) <==> ValidUrl(url) && value == Display(url)
  {
    hide ParseView, ParseRepository, ParseLabels, PathAndQuery, PathText, LabelsText, QueryOf, ValidLabels, Display;
    if StartsWith(value, URL_PREFIX) {
      var rest := value[|URL_PREFIX|..];
      assert value == URL_PREFIX + rest;
      ParsePathExact(rest, url.repository, url.view, QueryOf(url.labels));
      if ValidUrl(url) && value == Display(url) {
        DisplayIs(url);
        DisplayPlain(url);
        ParseLabelsExact(QueryOf(url.labels), url.labels);
      }
      if Parse(value) == Ok(url) {
        var query := ParsePath(rest).value.2;
        ParseLabelsExact(query, url.labels);
        ParsePathExact(rest, url.repository, url.view, query);
        DisplayIs(url);
      }
    } else if ValidUrl(url) {
      DisplayPlain(url);
    }
  }

  /** Two different URLs never print alike. */
  lemma DisplayInjective(a: GitRemoteUrl, b: GitRemoteUrl)
    requires ValidUrl(a) && ValidUrl(b) && Display(a) == Display(b)
    ensures a == b
  {
    ParseExact(Display(a), a);
    ParseExact(Display(b), b);
  }
}
