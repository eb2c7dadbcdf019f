/** The request configuration of the sample client (config.go), reduced to what
    GetBoundary reads and writes: the header lines and the cached multipart
    boundary. */
module AppConfig {
  import opened Wrappers
  import opened Strings

  /** The header that announces a multipart body, up to the boundary itself. */
  const BoundaryPrefix: string := "Content-Type: multipart/form-data; boundary="

  /** The boundary GetBoundary falls back to when no header announces one. */
  const DefaultBoundary: string := "sk29ksksk82ksmsgdfg4rgs5llopsja82"

  /** The position of the first header that announces a boundary, if any. */
  function FirstBoundaryHeader(headers: seq<string>): (r: Option<nat>)
    ensures r.Some? ==> r.value < |headers| && HasPrefix(headers[r.value], BoundaryPrefix)
    ensures r.Some? ==> forall j :: 0 <= j < r.value ==> !HasPrefix(headers[j], BoundaryPrefix)
    ensures r.None? <==> forall j :: 0 <= j < |headers| ==> !HasPrefix(headers[j], BoundaryPrefix)
    decreases |headers|
  {
    if headers == [] then None
    else if HasPrefix(headers[0], BoundaryPrefix) then Some(0)
    else
      var r := FirstBoundaryHeader(headers[1..]);
      assert forall j :: 1 <= j < |headers| ==> headers[j] == headers[1..][j - 1];
      match r
      case None => None
      case Some(i) => Some(i + 1)
  }

  /** The boundary and the headers of a configuration. */
  datatype Fields = Fields(boundary: string, headers: seq<string>)

  /** What GetBoundary leaves behind, from the boundary and headers it starts with. */
  function Resolve(boundary: string, headers: seq<string>): Fields {
    if boundary != "" then Fields(boundary, headers)
    else
      match FirstBoundaryHeader(headers)
      case Some(i) => Fields(ReplaceFirst(headers[i], BoundaryPrefix, ""), headers)
      case None => Fields(DefaultBoundary, headers + [BoundaryPrefix + DefaultBoundary])
  }

  /** Config: only the fields GetBoundary uses. */
  class Config {
    var headers: seq<string>
    var boundary: string

    /** A configuration as ReadConfig decodes it: the boundary is unexported,
        so it starts empty. */
    constructor (headers: seq<string>)
      ensures this.headers == headers && boundary == ""
    {
      this.headers := headers;
      boundary := "";
    }

    /** Config.GetBoundary: the cached boundary, else the one the first
        boundary header announces, else the default one, announced by a header
        it appends. */
    method GetBoundary() returns (r: string)
      modifies this
      ensures r == boundary
      ensures Fields(boundary, headers) == Resolve(old(boundary), old(headers))
    {
      if boundary != "" {
        return boundary;
      }
      for i := 0 to |headers|
        invariant forall j :: 0 <= j < i ==> !HasPrefix(headers[j], BoundaryPrefix)
      {
        if HasPrefix(headers[i], BoundaryPrefix) {
          boundary := ReplaceFirst(headers[i], BoundaryPrefix, "");
          return boundary;
        }
      }
      headers := headers + [BoundaryPrefix + DefaultBoundary];
      boundary := DefaultBoundary;
      return boundary;
    }
  }

  /** The three outcomes of GetBoundary: a non-empty boundary is kept as it is;
      otherwise the first boundary header gives the text after the prefix and
      the headers stay as they are; otherwise exactly one header, announcing
      the default boundary, is appended. */
  lemma {:induction false} ResolveCases(boundary: string, headers: seq<string>)
    ensures boundary != "" ==> Resolve(boundary, headers) == Fields(boundary, headers)
    ensures boundary == "" && FirstBoundaryHeader(headers).Some? ==>
      var h := headers[FirstBoundaryHeader(headers).value];
      Resolve(boundary, headers) == Fields(h[|BoundaryPrefix|..], headers)
    ensures boundary == "" && FirstBoundaryHeader(headers).None? ==>
      Resolve(boundary, headers) == Fields(DefaultBoundary, headers + [BoundaryPrefix + DefaultBoundary])
  {
    match FirstBoundaryHeader(headers)
    case None =>
    case Some(i) =>
      ReplacePrefix(headers[i], BoundaryPrefix);
  }

  /** Calling GetBoundary again changes nothing and returns the same boundary. */
  lemma {:induction false} ResolveIdempotent(boundary: string, headers: seq<string>)
    ensures var f := Resolve(boundary, headers); Resolve(f.boundary, f.headers) == f
  {
    var f := Resolve(boundary, headers);
    if boundary == "" && f.boundary == "" {
      assert f.headers == headers;
    } else if boundary == "" && FirstBoundaryHeader(headers).None? {
      assert f.boundary == DefaultBoundary && DefaultBoundary[0] == 's';
    }
  }

  /** Once GetBoundary has run on an empty cache, the headers announce the
      boundary it returns: the first boundary header is the prefix followed by it. */
  lemma {:induction false} ResolveAnnounces(headers: seq<string>)
    ensures var f := Resolve("", headers);
      FirstBoundaryHeader(f.headers).Some? &&
      f.headers[FirstBoundaryHeader(f.headers).value] == BoundaryPrefix + f.boundary
  {
    ResolveCases("", headers);
    var f := Resolve("", headers);
    match FirstBoundaryHeader(headers)
    case Some(i) =>
      var h := headers[i];
      assert h == h[..|BoundaryPrefix|] + h[|BoundaryPrefix|..];
    case None =>
      var added := BoundaryPrefix + DefaultBoundary;
      assert f.headers[|headers|] == added && HasPrefix(added, BoundaryPrefix);
      var k := FirstBoundaryHeader(f.headers);
      assert forall j :: 0 <= j < |headers| ==> f.headers[j] == headers[j];
      assert k.Some? && k.value == |headers|;
  }
}
