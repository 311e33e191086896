/** The `.pls` playlist reader: it fetches the playlist text, keeps the
    `FileN=` entries and returns their URI-decoded values in line order. */
module PlsParser {
  import opened Wrappers
  import opened Text

  /** What `fetch(plsUrl)` and `response.text()` produced. */
  datatype Fetched = FetchFailed | Content(text: string)

  /** Why the call throws: the fetch failed, or `decodeURIComponent`
      rejected the value of some line. */
  datatype PlsError = FetchError | DecodeError(value: string)

  /** The value one line contributes before decoding: for a trimmed line
      starting with `File`, the trimmed text after its first `=`, when that
      is non-empty. */
  function LineValue(line: string): Option<string> {
    var trimmedLine := Trim(line);
    if StartsWith(trimmedLine, "File") then
      var parts := Split(trimmedLine, '=');
      if |parts| >= 2 then
        var url := Trim(Join(parts[1..], "="));
        if url != "" then Some(url) else None
      else None
    else None
  }

  /** Only trimmed lines that start with the case-sensitive prefix `File`
      and contain `=` contribute; their value is everything after the
      first `=` (later `=` kept), trimmed, and must be non-empty. */
  lemma LineValueSpec(line: string)
    ensures var t := Trim(line);
      LineValue(line).Some? <==>
        StartsWith(t, "File") && IndexOf(t, "=").Some? && Trim(t[IndexOf(t, "=").value + 1..]) != ""
    ensures var t := Trim(line);
      LineValue(line).Some? ==> LineValue(line).value == Trim(t[IndexOf(t, "=").value + 1..])
  {
    var t := Trim(line);
    var parts := Split(t, '=');
    if '=' in t {
      SplitAfterFirst(t, '=');
      var k := IndexOf(t, "=").value;
      assert Join(parts[1..], "=") == t[k + 1..];
    } else {
      SplitWithout(t, '=');
      IndexOfAbsentChar(t, '=');
    }
  }

  /** A carriage return before the newline does not change what a line contributes. */
  lemma LineValueIgnoresCarriageReturn(line: string)
    ensures LineValue(line + "\r") == LineValue(line)
  {
    TrimDropsCarriageReturn(line);
  }

  /** The values `f` yields on `xs`, in order: what pushing every
      successful `f(x)` onto an initially empty array collects. */
  function Collect<T, U>(f: T -> Option<U>, xs: seq<T>): (r: seq<U>)
    ensures |r| <= |xs|
  {
    if xs == [] then []
    else
      var last := xs[|xs| - 1];
      Collect(f, xs[..|xs| - 1]) + (match f(last) case Some(v) => [v] case None => [])
  }

  /** The undecoded values of `lines`, in line order. */
  function Values(lines: seq<string>): seq<string> {
    Collect(LineValue, lines)
  }

  lemma CollectStep<T, U>(f: T -> Option<U>, xs: seq<T>, i: nat)
    requires i < |xs|
    ensures Collect(f, xs[..i + 1]) == Collect(f, xs[..i]) + (match f(xs[i]) case Some(v) => [v] case None => [])
  {
    assert xs[..i + 1][..i] == xs[..i];
  }

  /** Collected values keep the order of their sources: those of a
      concatenation are the values of the first part followed by those of
      the second. */
  lemma {:induction false} CollectAppend<T, U>(f: T -> Option<U>, a: seq<T>, b: seq<T>)
    ensures Collect(f, a + b) == Collect(f, a) + Collect(f, b)
  {
    if b != [] {
      assert (a + b)[..|a + b| - 1] == a + b[..|b| - 1];
      assert (a + b)[|a + b| - 1] == b[|b| - 1];
      CollectAppend(f, a, b[..|b| - 1]);
    } else {
      assert a + b == a;
    }
  }

  lemma CollectSplit<T, U>(f: T -> Option<U>, xs: seq<T>, k: nat)
    requires k <= |xs|
    ensures Collect(f, xs) == Collect(f, xs[..k]) + Collect(f, xs[k..])
  {
    assert xs == xs[..k] + xs[k..];
    CollectAppend(f, xs[..k], xs[k..]);
  }

  /** Every collected value is what `f` gives on some element. */
  lemma {:induction false} CollectFrom<T, U>(f: T -> Option<U>, xs: seq<T>, v: U)
    requires v in Collect(f, xs)
    ensures exists k :: 0 <= k < |xs| && f(xs[k]) == Some(v)
  {
    var n := |xs|;
    var init := xs[..n - 1];
    if v in Collect(f, init) {
      CollectFrom(f, init, v);
      var k :| 0 <= k < |init| && f(init[k]) == Some(v);
      assert xs[k] == init[k];
    } else {
      assert f(xs[n - 1]) == Some(v);
    }
  }

  /** `decodeURIComponent` applied to each value in order; the first value
      it rejects makes the whole result that error. */
  function DecodeAll(values: seq<string>, decode: string -> Option<string>): Result<seq<string>, PlsError> {
    if values == [] then Success([])
    else
      var n := |values|;
      match DecodeAll(values[..n - 1], decode)
      case Failure(e) => Failure(e)
      case Success(ds) =>
        match decode(values[n - 1])
        case None => Failure(DecodeError(values[n - 1]))
        case Some(d) => Success(ds + [d])
  }

  /** A successful decoding has one result per value, each the decoding of
      the value at the same position; a failure names a value that does not
      decode. */
  lemma {:induction false} DecodeAllSpec(values: seq<string>, decode: string -> Option<string>)
    ensures var r := DecodeAll(values, decode);
      r.Success? ==> |r.value| == |values| && forall i :: 0 <= i < |values| ==> decode(values[i]) == Some(r.value[i])
    ensures var r := DecodeAll(values, decode);
      r.Failure? ==> r.error.DecodeError? && r.error.value in values && decode(r.error.value).None?
  {
    if values != [] {
      var n := |values|;
      var init := values[..n - 1];
      DecodeAllSpec(init, decode);
      var r := DecodeAll(values, decode);
      if r.Success? {
        var ds := DecodeAll(init, decode).value;
        assert r.value == ds + [decode(values[n - 1]).value];
        forall i | 0 <= i < n ensures decode(values[i]) == Some(r.value[i]) {
          if i < n - 1 { assert values[i] == init[i]; }
        }
      } else if DecodeAll(init, decode).Failure? {
        assert DecodeAll(init, decode).error.value in values;
      }
    }
  }

  /** Every value decodes exactly when the whole decoding succeeds. */
  lemma {:induction false} DecodeAllSucceedsIff(values: seq<string>, decode: string -> Option<string>)
    ensures DecodeAll(values, decode).Success? <==> forall i :: 0 <= i < |values| ==> decode(values[i]).Some?
  {
    if values != [] {
      var n := |values|;
      DecodeAllSucceedsIff(values[..n - 1], decode);
      DecodeAllSpec(values[..n - 1], decode);
      if DecodeAll(values[..n - 1], decode).Failure? {
        var v := DecodeAll(values[..n - 1], decode).error.value;
        var i :| 0 <= i < n - 1 && values[..n - 1][i] == v;
        assert values[i] == v;
      } else if DecodeAll(values, decode).Success? {
        forall i | 0 <= i < n ensures decode(values[i]).Some? {
          if i < n - 1 { assert values[i] == values[..n - 1][i]; }
        }
      }
    }
  }

  lemma DecodeAllStep(values: seq<string>, v: string, decode: string -> Option<string>)
    ensures DecodeAll(values + [v], decode) ==
      match DecodeAll(values, decode)
      case Failure(e) => Failure(e)
      case Success(ds) => (match decode(v) case None => Failure(DecodeError(v)) case Some(d) => Success(ds + [d]))
  {
    assert (values + [v])[..|values|] == values;
  }

  /** Once a decode has failed, later values do not change the outcome. */
  lemma {:induction false} DecodeAllFailureSticks(a: seq<string>, b: seq<string>, decode: string -> Option<string>)
    requires DecodeAll(a, decode).Failure?
    ensures DecodeAll(a + b, decode) == DecodeAll(a, decode)
  {
    if b != [] {
      assert (a + b)[..|a + b| - 1] == a + b[..|b| - 1];
      DecodeAllFailureSticks(a, b[..|b| - 1], decode);
    } else {
      assert a + b == a;
    }
  }

  /** A decode failure at element `i` is the outcome for the whole sequence. */
  lemma FailureAtSticks<T>(f: T -> Option<string>, xs: seq<T>, i: nat, decode: string -> Option<string>)
    requires i < |xs| && DecodeAll(Collect(f, xs[..i + 1]), decode).Failure?
    ensures DecodeAll(Collect(f, xs), decode) == DecodeAll(Collect(f, xs[..i + 1]), decode)
  {
    CollectSplit(f, xs, i + 1);
    DecodeAllFailureSticks(Collect(f, xs[..i + 1]), Collect(f, xs[i + 1..]), decode);
  }

  /** What one more element does to the decoding of the values collected before it. */
  lemma CollectDecodeStep<T>(f: T -> Option<string>, xs: seq<T>, i: nat, decode: string -> Option<string>, urls: seq<string>)
    requires i < |xs| && DecodeAll(Collect(f, xs[..i]), decode) == Success(urls)
    ensures f(xs[i]).None? ==> DecodeAll(Collect(f, xs[..i + 1]), decode) == Success(urls)
    ensures f(xs[i]).Some? && decode(f(xs[i]).value).None? ==>
      DecodeAll(Collect(f, xs[..i + 1]), decode) == Failure(DecodeError(f(xs[i]).value))
    ensures f(xs[i]).Some? && decode(f(xs[i]).value).Some? ==>
      DecodeAll(Collect(f, xs[..i + 1]), decode) == Success(urls + [decode(f(xs[i]).value).value])
  {
    CollectStep(f, xs, i);
    var before := Collect(f, xs[..i]);
    if f(xs[i]).None? {
      assert before + [] == before;
    } else {
      DecodeAllStep(before, f(xs[i]).value, decode);
    }
  }

  /** The `forEach` over the lines: each element's value, if any, is decoded
      and pushed in order; the first rejected value ends the walk with that
      error. */
  method DecodeEach<T>(f: T -> Option<string>, xs: seq<T>, decode: string -> Option<string>) returns (r: Result<seq<string>, PlsError>)
    ensures r == DecodeAll(Collect(f, xs), decode)
  {
    var urls: seq<string> := [];
    var i := 0;
    while i < |xs|
      invariant 0 <= i <= |xs|
      invariant DecodeAll(Collect(f, xs[..i]), decode) == Success(urls)
    {
      CollectDecodeStep(f, xs, i, decode, urls);
      match f(xs[i]) {
        case Some(url) =>
          match decode(url) {
            case None =>
              FailureAtSticks(f, xs, i, decode);
              return Failure(DecodeError(url));
            case Some(decoded) =>
              urls := urls + [decoded];
          }
        case None =>
      }
      i := i + 1;
    }
    assert xs[..i] == xs;
    r := Success(urls);
  }

  /** `parsePlsPlaylist`: the lines are the text split on `'\n'` only; each
      line's value, if any, is decoded and appended in line order. */
  method ParsePlsPlaylist(fetched: Fetched, decode: string -> Option<string>) returns (r: Result<seq<string>, PlsError>)
    ensures fetched.FetchFailed? ==> r == Failure(FetchError)
    ensures fetched.Content? ==> r == DecodeAll(Values(Split(fetched.text, '\n')), decode)
  {
    if fetched.FetchFailed? {
      return Failure(FetchError);
    }
    var lines := Split(fetched.text, '\n');
    r := DecodeEach(LineValue, lines, decode);
  }

  /** What a successful decoding of collected values holds: at most one
      result per source element, each the decoding of some element's value. */
  lemma DecodedFromSources<T>(f: T -> Option<string>, xs: seq<T>, decode: string -> Option<string>)
    requires DecodeAll(Collect(f, xs), decode).Success?
    ensures var urls := DecodeAll(Collect(f, xs), decode).value;
      |urls| <= |xs|
      && forall i :: 0 <= i < |urls| ==>
           (exists k :: 0 <= k < |xs| && f(xs[k]).Some? && decode(f(xs[k]).value) == Some(urls[i]))
  {
    var vs := Collect(f, xs);
    var urls := DecodeAll(vs, decode).value;
    DecodeAllSpec(vs, decode);
    forall i | 0 <= i < |urls|
      ensures exists k :: 0 <= k < |xs| && f(xs[k]).Some? && decode(f(xs[k]).value) == Some(urls[i])
    {
      CollectFrom(f, xs, vs[i]);
      var k :| 0 <= k < |xs| && f(xs[k]) == Some(vs[i]);
      assert decode(vs[i]) == Some(urls[i]);
    }
  }
}
