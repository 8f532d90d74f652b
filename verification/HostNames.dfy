/** Which host each part of the system takes a text for, and where they agree. */
module HostNames {
  import opened Text
  import opened Paths
  import opened Model
  import opened Folding
  import opened Lookup
  import opened EdgeWorker

  // ---------------------------------------------------------------------------
  // Admission against the EdgeWorker
  // ---------------------------------------------------------------------------

  lemma {:induction false} PortOfTrimmed(raw: string)
    ensures BeforePort(Trim(raw)) == if ':' in raw then TrimStart(BeforePort(raw)) else Trim(raw)
  {
    TrimStartBeforePort(raw);
    var t := TrimStart(raw);
    if ':' in raw {
      EndLeavesPort(t);
    } else {
      NoPort(Trim(raw));
      assert Trim(raw) == t[..|Trim(raw)|];
    }
  }

  lemma {:induction false} TrimStartBeforePort(raw: string)
    ensures BeforePort(TrimStart(raw)) == TrimStart(BeforePort(raw))
    ensures ':' in TrimStart(raw) <==> ':' in raw
  {
    if StartsWhite(raw) {
      TrimStartBeforePort(raw[1..]);
      var b := BeforePort(raw);
      assert raw[0] != ':';
      assert raw == [raw[0]] + raw[1..];
      BeforePortIff(raw, [raw[0]] + BeforePort(raw[1..]));
      BeforePortIff(raw[1..], BeforePort(raw[1..]));
      assert b == [raw[0]] + BeforePort(raw[1..]);
      assert b[1..] == BeforePort(raw[1..]);
    } else {
      NoPort(raw);
      assert TrimStart(raw) == raw;
      assert TrimStart(BeforePort(raw)) == BeforePort(raw);
    }
  }

  /** A port keeps white space at the end away from the name. */
  lemma EndLeavesPort(t: string)
    requires ':' in t
    ensures BeforePort(TrimEnd(t)) == BeforePort(t)
  {
    var e, i := TrimEnd(t), IndexOf(t, ':');
    assert !IsWhitespace(':');
    assert i < |e|;
    assert e[..i] == t[..i] && e[i] == ':';
    BeforePortIff(e, t[..i]);
    assert e[..i + 1] == t[..i] + ":";
  }

  lemma TrimStartFixesIff(s: string)
    ensures TrimStart(s) == s <==> !StartsWhite(s)
    ensures |TrimStart(s)| == |s| <==> TrimStart(s) == s
  {
  }

  /** The control plane and the EdgeWorker take a text for the same host exactly
      when no white space precedes it, and none follows it unless a port does. */
  lemma NormalizersAgreeIff(raw: string)
    ensures NormalizeHost(raw) == NormalizeHostJs(raw) <==> !StartsWhite(raw) && (':' in raw || !EndsInWhitespace(raw))
  {
    var name := BeforePort(raw);
    PortOfTrimmed(raw);
    NoPort(raw);
    TrimStartFixesIff(name);
    TrimFixesIff(raw);
    TrimShortens(raw);
    assert StartsWhite(raw) <==> StartsWhite(name) by {
      assert !IsWhitespace(':');
    }
  }

  // ---------------------------------------------------------------------------
  // The resolver against the EdgeWorker
  // ---------------------------------------------------------------------------

  /** What the resolver takes a header value for: what the name before its port,
      without white space around it, is up to case. */
  lemma HostInIff(value: string, name: string, before: string, core: string, after: string, h: string)
    requires HasName(value, name) && Surrounds(name, before, core, after) && !HasUpper(h)
    ensures HostIn(value) == h <==> SameUpToCase(core, h)
    ensures IsLowerHost(HostIn(value))
  {
    BeforePortIff(value, name);
    TrimIsCore(name, before, core, after);
    LowerMeaning(core);
    LowerFixesIff(h);
    FoldsAlikeIff(core, h);
    LowerKeepsColon(core);
    assert forall i :: 0 <= i < |core| ==> core[i] == name[|before| + i];
  }

  /** Resolver and EdgeWorker take a header value for the same host exactly when
      there is no white space around the name before its port. */
  lemma ResolverAgreesIff(value: string)
    ensures HostIn(value) == NormalizeHostJs(value) <==> !StartsWhite(BeforePort(value)) && !EndsInWhitespace(BeforePort(value))
  {
    TrimFixesIff(BeforePort(value));
    TrimShortens(BeforePort(value));
  }

  /** The first header that names a host decides; without one, the URL does. */
  lemma {:induction false} FirstNamed(values: seq<Option<string>>, i: nat)
    requires i < |values| && values[i].Some? && HostIn(values[i].value) != ""
    requires forall j :: 0 <= j < i ==> values[j].None? || HostIn(values[j].value) == ""
    ensures FirstHost(values) == HostIn(values[i].value)
  {
    if i > 0 {
      FirstNamed(values[1..], i - 1);
    }
  }

  lemma {:induction false} NoneNamed(values: seq<Option<string>>)
    requires forall j :: 0 <= j < |values| ==> values[j].None? || HostIn(values[j].value) == ""
    ensures FirstHost(values) == ""
  {
    if values != [] {
      NoneNamed(values[1..]);
    }
  }

  lemma RequestHostIs(headers: Headers, i: nat)
    requires var values := [headers.forwardedHost, headers.trueClientHost, headers.host];
      && i < 3 && values[i].Some? && HostIn(values[i].value) != ""
      && forall j :: 0 <= j < i ==> values[j].None? || HostIn(values[j].value) == ""
    ensures RequestHost(headers) == HostIn([headers.forwardedHost, headers.trueClientHost, headers.host][i].value)
  {
    FirstNamed([headers.forwardedHost, headers.trueClientHost, headers.host], i);
  }

  lemma SchemeStrips(after: string)
    ensures "http://" <= "http://" + after && ("http://" + after)[7..] == after
    ensures "https://" <= "https://" + after && ("https://" + after)[8..] == after
    ensures !("http://" <= "https://" + after)
  {
    assert ("https://" + after)[4] == 's';
  }

  lemma AuthorityEnds(authority: string, rest: string)
    requires '/' !in authority && (rest == "" || rest[0] == '/')
    ensures (authority + rest)[..IndexOf(authority + rest, '/')] == authority
  {
    if rest == "" {
      assert authority + rest == authority;
    } else {
      assert rest == ['/'] + rest[1..];
      assert authority + rest == authority + ['/'] + rest[1..];
      IndexOfAppend(authority, '/', rest[1..]);
    }
  }

  /** The URL of a request without host headers, `http://` or `https://`, the
      authority, and nothing or a path. */
  lemma UrlHostIs(headers: Headers, secure: bool, authority: string, rest: string)
    requires headers.forwardedHost.None? && headers.trueClientHost.None? && headers.host.None?
    requires '/' !in authority && (rest == "" || rest[0] == '/')
    requires headers.fullUrl == Some((if secure then "https://" else "http://") + (authority + rest))
    ensures RequestHost(headers) ==
      if HostIn(authority) == "127.0.0.1" || HostIn(authority) == "localhost" then "" else HostIn(authority)
  {
    NoneNamed([headers.forwardedHost, headers.trueClientHost, headers.host]);
    SchemeStrips(authority + rest);
    AuthorityEnds(authority, rest);
  }
}
