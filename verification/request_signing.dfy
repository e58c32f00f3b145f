/**
 * The request decorator the client pushes onto its Guzzle handler stack:
 * every outgoing request gets seven authentication and routing headers,
 * the signature among them computed over the request's own URL and method.
 */
module RequestSigning {
  import opened Results
  import opened PhpValues

  const SERVICE_NAME_HEADER := "WM_SVC.NAME"
  const CORRELATION_ID_HEADER := "WM_QOS.CORRELATION_ID"
  const TIMESTAMP_HEADER := "WM_SEC.TIMESTAMP"
  const SIGNATURE_HEADER := "WM_SEC.AUTH_SIGNATURE"
  const CHANNEL_TYPE_HEADER := "WM_CONSUMER.CHANNEL.TYPE"
  const ACCEPT_HEADER := "Accept"
  const CONSUMER_ID_HEADER := "WM_CONSUMER.ID"

  const SERVICE_NAME := "Walmart Marketplace"
  const CHANNEL_TYPE := "0f3e4dd4-0514-4346-b39d-af0e00ea066d"
  const ACCEPT_TYPE := "application/xml"

  /** A header as handed to `withHeader`: its name and the value given. */
  datatype Header = Header(name: string, value: Value)

  /** The parts of a PSR-7 request the decorator reads or writes. */
  datatype Request = Request(verb: string, uri: string, headers: seq<Header>)

  /** `Signature::calculateSignature(consumerId, privateKey, url, method,
      timestamp)`; its RSA-SHA256 body is not part of this model. */
  type Signer = (Value, Value, string, string, string) -> string

  function LowerChar(c: char): char
  {
    if 'A' <= c <= 'Z' then (c as int + 32) as char else c
  }

  /** ASCII `strtolower`, which is how PSR-7 messages compare header names. */
  function Lower(s: string): string
  {
    seq(|s|, i requires 0 <= i < |s| => LowerChar(s[i]))
  }

  /** Header names are compared case-insensitively. */
  predicate SameName(a: string, b: string)
  {
    Lower(a) == Lower(b)
  }

  /** The headers of `hs` whose name is not `name`, in order. */
  function WithoutHeader(hs: seq<Header>, name: string): seq<Header>
  {
    if |hs| == 0 then []
    else (if SameName(hs[0].name, name) then [] else [hs[0]]) + WithoutHeader(hs[1..], name)
  }

  /** The value of the first header called `name`, if any. */
  function GetHeader(hs: seq<Header>, name: string): Option<Value>
  {
    if |hs| == 0 then None
    else if SameName(hs[0].name, name) then Some(hs[0].value)
    else GetHeader(hs[1..], name)
  }

  /** `$request->withHeader($name, $value)` as Guzzle's PSR-7 message does
      it: any header of that name is dropped and the new one goes last. */
  function WithHeader(r: Request, h: Header): Request
  {
    r.(headers := WithoutHeader(r.headers, h.name) + [h])
  }

  /** `withHeader` applied for each of `hs` in turn. */
  function WithHeaders(r: Request, hs: seq<Header>): (r': Request)
    ensures r'.verb == r.verb && r'.uri == r.uri
    decreases |hs|
  {
    if |hs| == 0 then r else WithHeaders(WithHeader(r, hs[0]), hs[1..])
  }

  /** The headers of `hs` whose name is none of the names in `names`. */
  function WithoutHeaders(hs: seq<Header>, names: seq<Header>): seq<Header>
    decreases |names|
  {
    if |names| == 0 then hs else WithoutHeaders(WithoutHeader(hs, names[0].name), names[1..])
  }

  predicate DistinctNames(hs: seq<Header>)
  {
    forall i, j :: 0 <= i < j < |hs| ==> !SameName(hs[i].name, hs[j].name)
  }

  /** Whether `name` is among the names of `hs`. */
  predicate Named(hs: seq<Header>, name: string)
  {
    exists i :: 0 <= i < |hs| && SameName(hs[i].name, name)
  }

  /** The seven headers, in the order the decorator sets them. */
  function DecoratorHeaders(consumerId: Value, timestamp: string, correlationId: string, signature: string): seq<Header>
  {
    [ Header(SERVICE_NAME_HEADER, Str(SERVICE_NAME)),
      Header(CORRELATION_ID_HEADER, Str(correlationId)),
      Header(TIMESTAMP_HEADER, Str(timestamp)),
      Header(SIGNATURE_HEADER, Str(signature)),
      Header(CHANNEL_TYPE_HEADER, Str(CHANNEL_TYPE)),
      Header(ACCEPT_HEADER, Str(ACCEPT_TYPE)),
      Header(CONSUMER_ID_HEADER, consumerId) ]
  }

  /** The `mapRequest` closure: sign the request's URL and method with the
      given timestamp, then set the seven headers. The timestamp and the
      correlation id (base64 of 16 random bytes) are supplied by the caller
      because they come from the clock and the random source. */
  function Decorate(req: Request, consumerId: Value, privateKey: Value,
                    timestamp: string, correlationId: string, sign: Signer): (r: Request)
    ensures r.verb == req.verb && r.uri == req.uri
  {
    var signature := sign(consumerId, privateKey, req.uri, req.verb, timestamp);
    WithHeaders(req, DecoratorHeaders(consumerId, timestamp, correlationId, signature))
  }

  // ---------------------------------------------------------------------------
  // Header facts
  // ---------------------------------------------------------------------------

  lemma {:induction false} GetHeaderConcat(x: seq<Header>, y: seq<Header>, n: string)
    ensures GetHeader(x + y, n) == if GetHeader(x, n).Some? then GetHeader(x, n) else GetHeader(y, n)
    decreases |x|
  {
    if |x| > 0 {
      assert (x + y)[1..] == x[1..] + y;
      GetHeaderConcat(x[1..], y, n);
    } else {
      assert x + y == y;
    }
  }

  lemma {:induction false} WithoutHeaderGet(hs: seq<Header>, m: string, n: string)
    ensures GetHeader(WithoutHeader(hs, m), n) == if SameName(n, m) then None else GetHeader(hs, n)
    decreases |hs|
  {
    if |hs| > 0 {
      WithoutHeaderGet(hs[1..], m, n);
      var head := if SameName(hs[0].name, m) then [] else [hs[0]];
      GetHeaderConcat(head, WithoutHeader(hs[1..], m), n);
    }
  }

  lemma {:induction false} WithoutHeaderConcat(x: seq<Header>, y: seq<Header>, m: string)
    ensures WithoutHeader(x + y, m) == WithoutHeader(x, m) + WithoutHeader(y, m)
    decreases |x|
  {
    if |x| > 0 {
      assert (x + y)[1..] == x[1..] + y;
      WithoutHeaderConcat(x[1..], y, m);
    } else {
      assert x + y == y;
    }
  }

  lemma {:induction false} WithoutHeaderNotNamed(hs: seq<Header>, m: string)
    requires forall i :: 0 <= i < |hs| ==> !SameName(hs[i].name, m)
    ensures WithoutHeader(hs, m) == hs
    decreases |hs|
  {
    if |hs| > 0 {
      WithoutHeaderNotNamed(hs[1..], m);
    }
  }

  lemma {:induction false} WithoutHeadersConcat(x: seq<Header>, y: seq<Header>, names: seq<Header>)
    ensures WithoutHeaders(x + y, names) == WithoutHeaders(x, names) + WithoutHeaders(y, names)
    decreases |names|
  {
    if |names| > 0 {
      WithoutHeaderConcat(x, y, names[0].name);
      WithoutHeadersConcat(WithoutHeader(x, names[0].name), WithoutHeader(y, names[0].name), names[1..]);
    }
  }

  lemma {:induction false} WithoutHeadersGet(hs: seq<Header>, names: seq<Header>, n: string)
    ensures GetHeader(WithoutHeaders(hs, names), n) == if Named(names, n) then None else GetHeader(hs, n)
    decreases |names|
  {
    if |names| > 0 {
      WithoutHeadersGet(WithoutHeader(hs, names[0].name), names[1..], n);
      WithoutHeaderGet(hs, names[0].name, n);
      if Named(names, n) && !SameName(n, names[0].name) {
        var i :| 0 <= i < |names| && SameName(names[i].name, n);
        assert names[1..][i - 1] == names[i];
      }
    }
  }

  lemma {:induction false} WithoutHeadersNotNamed(hs: seq<Header>, names: seq<Header>)
    requires forall i :: 0 <= i < |hs| ==> !Named(names, hs[i].name)
    ensures WithoutHeaders(hs, names) == hs
    decreases |names|
  {
    if |names| > 0 {
      assert forall i :: 0 <= i < |hs| ==> !SameName(hs[i].name, names[0].name);
      WithoutHeaderNotNamed(hs, names[0].name);
      WithoutHeadersNotNamed(hs, names[1..]);
    }
  }

  /** Setting distinctly named headers one after another leaves the other
      headers in order, followed by the new ones in the order they were set. */
  lemma {:induction false} WithHeadersShape(r: Request, hs: seq<Header>)
    requires DistinctNames(hs)
    ensures WithHeaders(r, hs) == r.(headers := WithoutHeaders(r.headers, hs) + hs)
    decreases |hs|
  {
    if |hs| > 0 {
      var r1 := WithHeader(r, hs[0]);
      var tail := hs[1..];
      assert DistinctNames(tail) by {
        forall i, j | 0 <= i < j < |tail| ensures !SameName(tail[i].name, tail[j].name) {
          assert tail[i] == hs[i + 1] && tail[j] == hs[j + 1];
        }
      }
      WithHeadersShape(r1, tail);
      WithoutHeadersConcat(WithoutHeader(r.headers, hs[0].name), [hs[0]], tail);
      WithoutHeadersNotNamed([hs[0]], tail);
      assert WithoutHeaders(r1.headers, tail) + tail
          == WithoutHeaders(r.headers, hs) + hs;
    }
  }

  lemma DecoratorNamesDistinct(consumerId: Value, timestamp: string, correlationId: string, signature: string)
    ensures DistinctNames(DecoratorHeaders(consumerId, timestamp, correlationId, signature))
  {
    var hs := DecoratorHeaders(consumerId, timestamp, correlationId, signature);
    forall i, j | 0 <= i < j < |hs| ensures !SameName(hs[i].name, hs[j].name) {
      if |hs[i].name| == |hs[j].name| {
        assert i == 1 && j == 3;
        assert Lower(hs[i].name)[3] == 'q' && Lower(hs[j].name)[3] == 's';
      } else {
        assert |Lower(hs[i].name)| != |Lower(hs[j].name)|;
      }
    }
  }

  /** The headers after decoration are the request's headers minus the seven
      names (compared case-insensitively), then exactly the seven headers. */
  lemma DecorateHeaderList(req: Request, consumerId: Value, privateKey: Value,
                           timestamp: string, correlationId: string, sign: Signer)
    ensures
      var signature := sign(consumerId, privateKey, req.uri, req.verb, timestamp);
      var added := DecoratorHeaders(consumerId, timestamp, correlationId, signature);
      Decorate(req, consumerId, privateKey, timestamp, correlationId, sign).headers
        == WithoutHeaders(req.headers, added) + added
  {
    var signature := sign(consumerId, privateKey, req.uri, req.verb, timestamp);
    DecoratorNamesDistinct(consumerId, timestamp, correlationId, signature);
    WithHeadersShape(req, DecoratorHeaders(consumerId, timestamp, correlationId, signature));
  }

  lemma {:induction false} WithoutHeaderMembers(hs: seq<Header>, m: string)
    ensures forall hd :: hd in WithoutHeader(hs, m) ==> hd in hs && !SameName(hd.name, m)
    decreases |hs|
  {
    if |hs| > 0 {
      WithoutHeaderMembers(hs[1..], m);
    }
  }

  lemma {:induction false} WithoutHeadersMembers(hs: seq<Header>, names: seq<Header>)
    ensures forall hd :: hd in WithoutHeaders(hs, names) ==> hd in hs && !Named(names, hd.name)
    decreases |names|
  {
    if |names| > 0 {
      var hs1 := WithoutHeader(hs, names[0].name);
      WithoutHeaderMembers(hs, names[0].name);
      WithoutHeadersMembers(hs1, names[1..]);
      forall hd | hd in WithoutHeaders(hs, names) ensures hd in hs && !Named(names, hd.name) {
        assert hd in hs1 && !Named(names[1..], hd.name);
      }
    }
  }

  lemma {:induction false} WithoutHeadersAllNamed(hs: seq<Header>, names: seq<Header>)
    requires forall hd :: hd in hs ==> Named(names, hd.name)
    ensures WithoutHeaders(hs, names) == []
  {
    WithoutHeadersMembers(hs, names);
    if |WithoutHeaders(hs, names)| > 0 {
      var hd := WithoutHeaders(hs, names)[0];
      assert hd in WithoutHeaders(hs, names);
    }
  }

  lemma {:induction false} GetHeaderDistinct(hs: seq<Header>, i: nat)
    requires DistinctNames(hs)
    requires i < |hs|
    ensures GetHeader(hs, hs[i].name) == Some(hs[i].value)
    decreases i
  {
    if i > 0 {
      var tail := hs[1..];
      assert tail[i - 1] == hs[i];
      assert DistinctNames(tail) by {
        forall a, b | 0 <= a < b < |tail| ensures !SameName(tail[a].name, tail[b].name) {
          assert tail[a] == hs[a + 1] && tail[b] == hs[b + 1];
        }
      }
      GetHeaderDistinct(tail, i - 1);
    }
  }

  /** Whether `name` is, case-insensitively, one of the seven names the
      decorator sets. */
  predicate IsDecoratorHeader(name: string)
  {
    Named(DecoratorHeaders(Null, "", "", ""), name)
  }

  /** Each of the seven headers reads back with the value the closure gives
      it: the signature is the signer's result over this request's URL and
      method with the same timestamp that goes into WM_SEC.TIMESTAMP, and
      every other header is left as it was. */
  lemma DecorateSetsHeaders(req: Request, consumerId: Value, privateKey: Value,
                            timestamp: string, correlationId: string, sign: Signer, other: string)
    ensures
      var r := Decorate(req, consumerId, privateKey, timestamp, correlationId, sign);
      && r.verb == req.verb
      && r.uri == req.uri
      && GetHeader(r.headers, SERVICE_NAME_HEADER) == Some(Str(SERVICE_NAME))
      && GetHeader(r.headers, CORRELATION_ID_HEADER) == Some(Str(correlationId))
      && GetHeader(r.headers, TIMESTAMP_HEADER) == Some(Str(timestamp))
      && GetHeader(r.headers, SIGNATURE_HEADER)
           == Some(Str(sign(consumerId, privateKey, req.uri, req.verb, timestamp)))
      && GetHeader(r.headers, CHANNEL_TYPE_HEADER) == Some(Str(CHANNEL_TYPE))
      && GetHeader(r.headers, ACCEPT_HEADER) == Some(Str(ACCEPT_TYPE))
      && GetHeader(r.headers, CONSUMER_ID_HEADER) == Some(consumerId)
      && (!IsDecoratorHeader(other) ==> GetHeader(r.headers, other) == GetHeader(req.headers, other))
  {
    var signature := sign(consumerId, privateKey, req.uri, req.verb, timestamp);
    var added := DecoratorHeaders(consumerId, timestamp, correlationId, signature);
    var r := Decorate(req, consumerId, privateKey, timestamp, correlationId, sign);
    DecorateHeaderList(req, consumerId, privateKey, timestamp, correlationId, sign);
    DecoratorNamesDistinct(consumerId, timestamp, correlationId, signature);
    var kept := WithoutHeaders(req.headers, added);
    forall i | 0 <= i < 7
      ensures GetHeader(r.headers, added[i].name) == Some(added[i].value)
    {
      GetHeaderConcat(kept, added, added[i].name);
      WithoutHeadersGet(req.headers, added, added[i].name);
      GetHeaderDistinct(added, i);
    }
    assert added[0].name == SERVICE_NAME_HEADER && added[1].name == CORRELATION_ID_HEADER;
    assert added[2].name == TIMESTAMP_HEADER && added[3].name == SIGNATURE_HEADER;
    assert added[4].name == CHANNEL_TYPE_HEADER && added[5].name == ACCEPT_HEADER;
    assert added[6].name == CONSUMER_ID_HEADER;
    if !IsDecoratorHeader(other) {
      assert !Named(added, other) by {
        forall i | 0 <= i < 7 ensures !SameName(added[i].name, other) {
          assert added[i].name == DecoratorHeaders(Null, "", "", "")[i].name;
        }
      }
      GetHeaderConcat(kept, added, other);
      WithoutHeadersGet(req.headers, added, other);
      assert GetHeader(added, other) == None by {
        NotNamedGetHeader(added, other);
      }
    }
  }

  lemma {:induction false} NotNamedGetHeader(hs: seq<Header>, n: string)
    requires !Named(hs, n)
    ensures GetHeader(hs, n) == None
    decreases |hs|
  {
    if |hs| > 0 {
      assert !SameName(hs[0].name, n);
      assert !Named(hs[1..], n);
      NotNamedGetHeader(hs[1..], n);
    }
  }

  /** Removing the names of `added` again, after `added` itself was
      appended, gives back the same remainder. */
  lemma ReapplyHeaders(hs: seq<Header>, added: seq<Header>)
    ensures WithoutHeaders(WithoutHeaders(hs, added) + added, added) == WithoutHeaders(hs, added)
  {
    var kept := WithoutHeaders(hs, added);
    WithoutHeadersConcat(kept, added, added);
    WithoutHeadersMembers(hs, added);
    forall i | 0 <= i < |kept| ensures !Named(added, kept[i].name) {
      assert kept[i] in kept;
    }
    WithoutHeadersNotNamed(kept, added);
    forall hd | hd in added ensures Named(added, hd.name) {
      var i :| 0 <= i < |added| && added[i] == hd;
    }
    WithoutHeadersAllNamed(added, added);
  }

  /** Decorating an already decorated request again with the same clock,
      random and signer inputs changes nothing: the seven headers replace
      their earlier copies rather than pile up. */
  lemma DecorateIdempotent(req: Request, consumerId: Value, privateKey: Value,
                           timestamp: string, correlationId: string, sign: Signer)
    ensures
      var once := Decorate(req, consumerId, privateKey, timestamp, correlationId, sign);
      Decorate(once, consumerId, privateKey, timestamp, correlationId, sign) == once
  {
    var signature := sign(consumerId, privateKey, req.uri, req.verb, timestamp);
    var added := DecoratorHeaders(consumerId, timestamp, correlationId, signature);
    var once := Decorate(req, consumerId, privateKey, timestamp, correlationId, sign);
    var twice := Decorate(once, consumerId, privateKey, timestamp, correlationId, sign);
    DecorateHeaderList(req, consumerId, privateKey, timestamp, correlationId, sign);
    DecorateHeaderList(once, consumerId, privateKey, timestamp, correlationId, sign);
    assert sign(consumerId, privateKey, once.uri, once.verb, timestamp) == signature;
    ReapplyHeaders(req.headers, added);
    assert twice.headers == once.headers;
  }
}
