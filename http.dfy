/**
 * The parts of the `http` crate (and of reqwest, which re-exports it) that the
 * load balancer's conversion layers rely on: methods, status codes, header
 * maps and the crate's fallible header conversions.
 */
module Http {
  import opened Wrappers

  /** An HTTP method, identified by its case-sensitive token (section 9.1 of RFC 9110). */
  datatype Method = Method(name: string)

  const GET: Method := Method("GET")
  const POST: Method := Method("POST")
  const PUT: Method := Method("PUT")
  const DELETE: Method := Method("DELETE")
  const PATCH: Method := Method("PATCH")

  /** Status codes used by the core (sections 15.3.1, 15.6.1 and 15.6.3 of RFC 9110). */
  const OK: nat := 200
  const INTERNAL_SERVER_ERROR: nat := 500
  const BAD_GATEWAY: nat := 502

  type HeaderName = string
  type HeaderValue = string

  /**
   * The answers of the crate's fallible header conversions, left uninterpreted:
   * `nameFromBytes` is HeaderName::from_bytes (which may also normalise the name),
   * `valueFromStr` says whether HeaderValue::from_str accepts a string, and
   * `valueToStr` whether HeaderValue::to_str succeeds on a value.
   */
  datatype HeaderRules = HeaderRules(
    nameFromBytes: string -> Option<HeaderName>,
    valueFromStr: string -> bool,
    valueToStr: HeaderValue -> bool)

  /**
   * A transport error as the `*ErrorChecker` traits see it: the answers of
   * reqwest::Error's is_timeout, is_connect and is_request, and its message.
   */
  datatype TransportError = TransportError(isTimeout: bool, isConnect: bool, isRequest: bool, message: string)

  /** A HeaderMap, as the sequence of its entries in iteration order. */
  type HeaderMap = seq<(HeaderName, HeaderValue)>

  function Names(hm: HeaderMap): set<HeaderName> {
    set i | 0 <= i < |hm| :: hm[i].0
  }

  lemma NamesCons(e: (HeaderName, HeaderValue), rest: HeaderMap)
    ensures Names([e] + rest) == {e.0} + Names(rest)
  {
    var hm := [e] + rest;
    forall n | n in Names(rest) ensures n in Names(hm) {
      var i :| 0 <= i < |rest| && rest[i].0 == n;
      assert hm[i + 1] == rest[i];
    }
    forall n | n in Names(hm) ensures n in {e.0} + Names(rest) {
      var i :| 0 <= i < |hm| && hm[i].0 == n;
      if i > 0 { assert hm[i] == rest[i - 1]; }
    }
    assert hm[0] == e;
  }

  predicate UniqueNames(hm: HeaderMap) {
    forall i, j :: 0 <= i < j < |hm| ==> hm[i].0 != hm[j].0
  }

  /** HeaderMap::get: the first value stored under `name`. */
  function Get(hm: HeaderMap, name: HeaderName): (r: Option<HeaderValue>)
    ensures r.Some? <==> name in Names(hm)
    ensures r.Some? ==> (name, r.value) in hm
    ensures forall i :: 0 <= i < |hm| && hm[i].0 == name && UniqueNames(hm) ==> r == Some(hm[i].1)
  {
    if hm == [] then None
    else if hm[0].0 == name then Some(hm[0].1)
    else
      assert hm == [hm[0]] + hm[1..];
      NamesCons(hm[0], hm[1..]);
      assert UniqueNames(hm) ==> UniqueNames(hm[1..]);
      assert forall i :: 1 <= i < |hm| ==> hm[i] == hm[1..][i - 1];
      Get(hm[1..], name)
  }

  lemma GetCons(e: (HeaderName, HeaderValue), rest: HeaderMap, name: HeaderName)
    ensures Get([e] + rest, name) == if e.0 == name then Some(e.1) else Get(rest, name)
  {
    assert ([e] + rest)[1..] == rest;
  }

  /** Every entry stored under `name` dropped; the others kept in order. */
  function RemoveAll(hm: HeaderMap, name: HeaderName): (r: HeaderMap)
    ensures Names(r) == Names(hm) - {name}
    ensures forall other :: other != name ==> Get(r, other) == Get(hm, other)
    ensures UniqueNames(hm) ==> UniqueNames(r)
  {
    if hm == [] then []
    else
      var rest := RemoveAll(hm[1..], name);
      assert hm == [hm[0]] + hm[1..];
      NamesCons(hm[0], hm[1..]);
      assert UniqueNames(hm) ==> UniqueNames(hm[1..]) && hm[0].0 !in Names(hm[1..]);
      if hm[0].0 == name then
        assert forall other :: other != name ==> Get(hm, other) == Get(hm[1..], other);
        rest
      else
        NamesCons(hm[0], rest);
        forall other | other != name ensures Get([hm[0]] + rest, other) == Get(hm, other) {
          GetCons(hm[0], rest, other);
          GetCons(hm[0], hm[1..], other);
        }
        [hm[0]] + rest
  }

  /**
   * HeaderMap::insert: the value replaces every value stored under `name`,
   * keeping the position of the first one; a new name goes at the end.
   */
  function Insert(hm: HeaderMap, name: HeaderName, value: HeaderValue): (r: HeaderMap)
    ensures Get(r, name) == Some(value)
    ensures forall other :: other != name ==> Get(r, other) == Get(hm, other)
    ensures Names(r) == Names(hm) + {name}
    ensures UniqueNames(hm) ==> UniqueNames(r)
  {
    if hm == [] then [(name, value)]
    else
      assert hm == [hm[0]] + hm[1..];
      NamesCons(hm[0], hm[1..]);
      assert UniqueNames(hm) ==> UniqueNames(hm[1..]) && hm[0].0 !in Names(hm[1..]);
      if hm[0].0 == name then
        var rest := RemoveAll(hm[1..], name);
        NamesCons((name, value), rest);
        forall other | other != name ensures Get([(name, value)] + rest, other) == Get(hm, other) {
          GetCons((name, value), rest, other);
          GetCons(hm[0], hm[1..], other);
        }
        GetCons((name, value), rest, name);
        [(name, value)] + rest
      else
        var rest := Insert(hm[1..], name, value);
        NamesCons(hm[0], rest);
        forall other ensures Get([hm[0]] + rest, other) == if other == name then Some(value) else Get(hm, other) {
          GetCons(hm[0], rest, other);
          GetCons(hm[0], hm[1..], other);
        }
        [hm[0]] + rest
  }
}
