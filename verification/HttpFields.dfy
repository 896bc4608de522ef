/** What decimal lengths and the Connection header mean.
    (projects/05-arcserve/src/protocol/http_parser.cpp, http_message.cpp; RFC 9112, section 9.3) */
module HttpFields {
  import opened HttpParser
  import opened ServerProtocol

  function Tens(n: nat): nat {
    if n == 0 then 1 else 10 * Tens(n - 1)
  }

  lemma TensMore(x: nat, n: nat)
    ensures x * Tens(n + 1) == 10 * (x * Tens(n))
  {
  }

  lemma DigitsJoin(a: string, b: string)
    requires Digits(a) && Digits(b)
    ensures Digits(a + b)
  {
  }

  lemma DigitsPart(a: string, n: nat)
    requires Digits(a) && n <= |a|
    ensures Digits(a[..n])
  {
  }

  /** Digits count in base ten: what stands in front of n digits counts Tens(n) times. */
  lemma {:induction false} DecimalJoin(a: string, b: string)
    requires Digits(a) && Digits(b)
    ensures Digits(a + b) && Decimal(a + b) == Decimal(a) * Tens(|b|) + Decimal(b)
    decreases |b|
  {
    DigitsJoin(a, b);
    if b == "" {
      assert a + b == a;
    } else {
      var n := |b| - 1;
      DigitsPart(b, n);
      assert (a + b)[..|a + b| - 1] == a + b[..n];
      DecimalJoin(a, b[..n]);
      TensMore(Decimal(a), n);
    }
  }

  /** And one digit for itself. */
  lemma DecimalOfOne(c: char)
    requires '0' <= c <= '9'
    ensures Decimal([c]) == c as nat - '0' as nat < 10
  {
    assert [c][..0] == "";
  }

  /** The first header of that name, in any case. */
  predicate FirstNamed(hs: seq<Header>, i: nat, name: string) {
    i < |hs| && SameIgnoringCase(hs[i].name, name) && forall j :: 0 <= j < i ==> !SameIgnoringCase(hs[j].name, name)
  }

  lemma FirstNamedLater(hs: seq<Header>, i: nat, name: string)
    requires hs != [] && !SameIgnoringCase(hs[0].name, name)
    ensures FirstNamed(hs, i + 1, name) <==> FirstNamed(hs[1..], i, name)
  {
    var rest := hs[1..];
    assert forall j :: 0 < j < |hs| ==> hs[j] == rest[j - 1];
    assert forall j :: 0 <= j < |rest| ==> rest[j] == hs[j + 1];
  }

  /** A header is looked up by name, in any case; the first one counts. */
  lemma {:induction false} FindHeaderIff(hs: seq<Header>, name: string, value: string)
    ensures FindHeader(hs, name) == Some(value) <==> exists i: nat :: FirstNamed(hs, i, name) && hs[i].value == value
    decreases |hs|
  {
    if hs != [] && !SameIgnoringCase(hs[0].name, name) {
      FindHeaderIff(hs[1..], name, value);
      if i: nat :| FirstNamed(hs[1..], i, name) && hs[1..][i].value == value {
        FirstNamedLater(hs, i, name);
      }
      if i: nat :| FirstNamed(hs, i, name) && hs[i].value == value {
        FirstNamedLater(hs, i - 1, name);
      }
    } else if hs != [] {
      assert FirstNamed(hs, 0, name);
    }
  }

  /** A request keeps the connection alive unless its first header named connection says close, in any case. */
  lemma KeepAliveIff(q: Request)
    ensures !KeepAlive(q) <==> exists i: nat :: FirstNamed(q.headers, i, "Connection") && SameIgnoringCase(q.headers[i].value, "close")
  {
    var h := FindHeader(q.headers, "Connection");
    if h.Some? { FindHeaderIff(q.headers, "Connection", h.value); }
    if i: nat :| FirstNamed(q.headers, i, "Connection") && SameIgnoringCase(q.headers[i].value, "close") {
      FindHeaderIff(q.headers, "Connection", q.headers[i].value);
    }
  }

  lemma CloseInAnyCase(v: string)
    ensures SameIgnoringCase(v, "close") <==>
              |v| == 5 && v[0] in {'c', 'C'} && v[1] in {'l', 'L'} && v[2] in {'o', 'O'} && v[3] in {'s', 'S'} && v[4] in {'e', 'E'}
  {
    if SameIgnoringCase(v, "close") {
      assert forall i :: 0 <= i < 5 ==> Lower(v[i]) == "close"[i];
    }
  }
}
