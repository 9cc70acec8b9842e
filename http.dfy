/** Request and response headers as the interception layer hands them over. */
module Http {
  import opened Wrappers
  import opened JsText
  import JsArray

  /** One `{name, value}` header record. */
  datatype Header = Header(name: string, value: string)

  /** `headers.find(h => h.name.toLowerCase() === lname)`, as the position of the
      header found: the first header whose lower-cased name is `lname`. */
  function FindHeader(headers: seq<Header>, lname: string): (r: Option<nat>)
    ensures r.Some? ==> r.value < |headers| && ToLower(headers[r.value].name) == lname
    ensures r.Some? ==> forall j :: 0 <= j < r.value ==> ToLower(headers[j].name) != lname
    ensures r.None? <==> forall j :: 0 <= j < |headers| ==> ToLower(headers[j].name) != lname
  {
    JsArray.FindIndex(headers, (h: Header) => ToLower(h.name) == lname)
  }

  /** The header search looks at names only. */
  lemma FindHeaderByNames(a: seq<Header>, b: seq<Header>, lname: string)
    requires |a| == |b|
    requires forall k :: 0 <= k < |a| ==> a[k].name == b[k].name
    ensures FindHeader(a, lname) == FindHeader(b, lname)
  {
  }

  /** `headers[i].value = v`: header `i` gets value `v` and keeps its name; the
      other headers, and so every header search, are unchanged. */
  function WithValue(headers: seq<Header>, i: nat, v: string): (r: seq<Header>)
    requires i < |headers|
    ensures |r| == |headers| && r[i] == Header(headers[i].name, v)
    ensures forall k :: 0 <= k < |headers| ==> r[k].name == headers[k].name
    ensures forall k :: 0 <= k < |headers| && k != i ==> r[k] == headers[k]
    ensures forall lname :: FindHeader(r, lname) == FindHeader(headers, lname)
  {
    var r := headers[i := Header(headers[i].name, v)];
    forall lname
      ensures FindHeader(r, lname) == FindHeader(headers, lname)
    {
      FindHeaderByNames(r, headers, lname);
    }
    r
  }
}
