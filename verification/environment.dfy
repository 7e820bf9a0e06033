/** Development-environment detection: the host-name heuristic that decides,
    once at load, whether the script writes diagnostics to the console. */
module Environment {
  import opened Common

  /** `isDevEnvironment()` applied to `window.location.hostname`. */
  predicate IsDevEnvironment(hostname: string)
  {
    hostname == "localhost" ||
    hostname == "127.0.0.1" ||
    StartsWith(hostname, "192.168.") ||
    Contains(hostname, ".local") ||
    Contains(hostname, ".test") ||
    Contains(hostname, "-dev.") ||
    Contains(hostname, ".dev.") ||
    Contains(hostname, "-staging.") ||
    EndsWith(hostname, ".ngrok.io")
  }

  /** The markers that may appear anywhere in a development host name. */
  const InfixMarkers: seq<string> := [".local", ".test", "-dev.", ".dev.", "-staging."]

  /** A host is a development host exactly when it is one of the two loopback
      names, starts with the text `192.168.`, has one of the
      infix markers at some position, or is an ngrok tunnel. */
  lemma DevEnvironmentCharacterised(hostname: string)
    ensures IsDevEnvironment(hostname) <==>
      hostname in {"localhost", "127.0.0.1"} ||
      StartsWith(hostname, "192.168.") ||
      (exists m, i :: m in InfixMarkers && OccursAt(hostname, m, i)) ||
      EndsWith(hostname, ".ngrok.io")
  {
    forall m | m in InfixMarkers
      ensures Contains(hostname, m) <==> exists i :: OccursAt(hostname, m, i)
    {
      ContainsIffOccurs(hostname, m);
    }
    assert forall m :: m in InfixMarkers <==>
      m == ".local" || m == ".test" || m == "-dev." || m == ".dev." || m == "-staging.";
  }

  /** A host recognised by a marker or by the ngrok suffix stays recognised
      under any further subdomain label: `x + hostname` is also a dev host. */
  lemma SubdomainOfDevHostIsDev(x: string, hostname: string)
    requires IsDevEnvironment(hostname)
    requires hostname != "localhost" && hostname != "127.0.0.1"
    requires !StartsWith(hostname, "192.168.")
    ensures IsDevEnvironment(x + hostname)
  {
    if EndsWith(hostname, ".ngrok.io") {
      EndsWithPrefixed(x, hostname, ".ngrok.io");
    } else if Contains(hostname, ".local") {
      ContainsPrefixed(x, hostname, ".local");
    } else if Contains(hostname, ".test") {
      ContainsPrefixed(x, hostname, ".test");
    } else if Contains(hostname, "-dev.") {
      ContainsPrefixed(x, hostname, "-dev.");
    } else if Contains(hostname, ".dev.") {
      ContainsPrefixed(x, hostname, ".dev.");
    } else {
      ContainsPrefixed(x, hostname, "-staging.");
    }
  }

  /** A string in which `a` is never followed by `b` does not contain any
      `p` that starts with `a` and `b`. */
  lemma NoLeadingPairNoContains(s: string, p: string, a: char, b: char)
    requires |p| >= 2 && p[0] == a && p[1] == b
    requires forall i :: 0 <= i < |s| - 1 && s[i] == a ==> s[i + 1] != b
    ensures !Contains(s, p)
  {
    ContainsIffOccurs(s, p);
    forall i | 0 <= i && i + |p| <= |s|
      ensures !OccursAt(s, p, i)
    {
      assert s[i..i + |p|][0] == s[i] && s[i..i + |p|][1] == s[i + 1];
    }
  }

  /** In the site's public host name a dot is followed only by `g`, `p` or
      `b`, and there is no dash. */
  lemma PublicHostCharacters(h: string)
    requires h == "agricultura.gravata.pe.gov.br"
    ensures forall i :: 0 <= i < |h| - 1 && h[i] == '.' ==> h[i + 1] in "gpb"
    ensures forall i :: 0 <= i < |h| - 1 ==> h[i] != '-'
  {
  }

  /** A marker that starts with a dash, or with a dot followed by `l`, `t`
      or `d`, does not occur in the site's public host name. */
  lemma PublicHostLacks(h: string, p: string)
    requires h == "agricultura.gravata.pe.gov.br"
    requires |p| >= 2 && (p[0] == '-' || (p[0] == '.' && p[1] in "ltd"))
    ensures !Contains(h, p)
  {
    PublicHostCharacters(h);
    NoLeadingPairNoContains(h, p, p[0], p[1]);
  }

  /** The site's public host name is not taken for a development host. */
  lemma PublicHostIsNotDev(h: string)
    requires h == "agricultura.gravata.pe.gov.br"
    ensures !IsDevEnvironment(h)
  {
    PublicHostLacks(h, ".local");
    PublicHostLacks(h, ".test");
    PublicHostLacks(h, ".dev.");
    PublicHostLacks(h, "-dev.");
    PublicHostLacks(h, "-staging.");
    PublicHostPrefixSuffix(h);
  }

  lemma PublicHostPrefixSuffix(h: string)
    requires h == "agricultura.gravata.pe.gov.br"
    ensures !EndsWith(h, ".ngrok.io") && !StartsWith(h, "192.168.")
    ensures h != "localhost" && h != "127.0.0.1"
  {
    assert h[|h| - 9] != '.';
    assert h[0] != '1';
  }

  /** Typical local and tunnelled hosts are taken for development hosts. */
  lemma LocalHostsAreDev()
    ensures IsDevEnvironment("localhost") && IsDevEnvironment("192.168.0.12")
    ensures IsDevEnvironment("gravata.local") && IsDevEnvironment("abc123.ngrok.io")
  {
    assert StartsWith("192.168.0.12", "192.168.") by {
      assert "192.168.0.12"[..8] == "192.168.";
    }
    var l := "gravata.local";
    assert OccursAt(l, ".local", 7) by { assert l[7..13] == ".local"; }
    ContainsIffOccurs(l, ".local");
    var n := "abc123.ngrok.io";
    assert n[|n| - 9..] == ".ngrok.io";
  }
}
