/**
 * middleware/corsMiddleware.go: the configured origin list (the setting split at commas,
 * each entry trimmed), the origin test, and the per-request header and preflight
 * decisions. Which environment variable supplies the setting is left to the caller.
 */
module Cors {
  import opened Wrappers
  import opened Text

  const AllowedMethods: seq<string> := ["GET", "POST", "PUT", "DELETE", "OPTIONS"]
  const AllowedHeaders: seq<string> := ["Content-Type", "Authorization", "X-Requested-With"]
  const Wildcard := "*"
  const PreflightMaxAge := "300"
  const StatusNoContent := 204

  datatype CorsConfig = CorsConfig(allowedOrigins: seq<string>, allowedMethods: seq<string>, allowedHeaders: seq<string>)

  /** Each entry of the comma-separated setting, trimmed of surrounding white space. */
  function TrimAll(fields: seq<string>): (r: seq<string>)
    ensures |r| == |fields|
    ensures forall i | 0 <= i < |fields| :: r[i] == TrimSpace(fields[i])
  {
    if fields == [] then [] else [TrimSpace(fields[0])] + TrimAll(fields[1..])
  }

  /** The number of occurrences of `c` in `s`. */
  function Count(s: string, c: char): nat {
    multiset(s)[c]
  }

  /** Splitting at `sep` yields one field more than there are separators. */
  lemma {:induction false} SplitCount(s: string, sep: char)
    ensures |Split(s, sep)| == Count(s, sep) + 1
    decreases |s|
  {
    if sep in s {
      var i := IndexOf(s, sep);
      assert Split(s, sep) == [s[..i]] + Split(s[i + 1..], sep);
      SplitCount(s[i + 1..], sep);
      assert s == s[..i] + [sep] + s[i + 1..];
      assert multiset(s) == multiset(s[..i]) + multiset{sep} + multiset(s[i + 1..]);
      assert sep !in s[..i];
      assert multiset(s[..i])[sep] == 0;
    } else {
      assert multiset(s)[sep] == 0;
    }
  }

  /** The origin list of NewCORSMiddleware: one trimmed entry per comma-separated field. */
  function ParseOrigins(setting: string): (origins: seq<string>)
    ensures |origins| == Count(setting, ',') + 1
    ensures forall i | 0 <= i < |origins| :: ',' !in origins[i]
    ensures forall i | 0 <= i < |origins| :: Trimmed(origins[i])
    ensures |origins| == |Split(setting, ',')|
    ensures forall i | 0 <= i < |origins| :: origins[i] == TrimSpace(Split(setting, ',')[i])
  {
    var fields := Split(setting, ',');
    SplitCount(setting, ',');
    var origins := TrimAll(fields);
    assert forall i | 0 <= i < |origins| :: ',' !in origins[i] && Trimmed(origins[i]) by {
      forall i | 0 <= i < |origins| ensures ',' !in origins[i] && Trimmed(origins[i]) {
        assert origins[i] == TrimSpace(fields[i]);
        TrimSpaceKeepsOut(fields[i], ',');
      }
    }
    origins
  }

  /** A string without white space at either end is its own trim. */
  lemma TrimSpaceFixesTrimmed(s: string)
    requires Trimmed(s)
    ensures TrimSpace(s) == s
  {
  }

  /** A list of trimmed, comma-free origins written with commas reads back as itself. */
  lemma ParseJoinedOrigins(origins: seq<string>)
    requires |origins| >= 1
    requires forall i | 0 <= i < |origins| :: ',' !in origins[i]
    requires forall i | 0 <= i < |origins| :: Trimmed(origins[i])
    ensures ParseOrigins(Join(origins, ',')) == origins
  {
    SplitJoin(origins, ',');
    forall i | 0 <= i < |origins| ensures TrimSpace(origins[i]) == origins[i] {
      TrimSpaceFixesTrimmed(origins[i]);
    }
  }

  /** NewCORSMiddleware, given the origin setting after its defaults are applied. */
  function NewCORSMiddleware(setting: string): (m: CorsConfig)
    ensures m.allowedOrigins == ParseOrigins(setting)
    ensures "OPTIONS" in m.allowedMethods
  {
    CorsConfig(ParseOrigins(setting), AllowedMethods, AllowedHeaders)
  }

  /** isOriginAllowed: some entry is the origin itself or the wildcard. */
  function IsOriginAllowed(origins: seq<string>, origin: string): (r: bool)
    ensures r <==> exists i | 0 <= i < |origins| :: origins[i] == origin || origins[i] == Wildcard
  {
    if origins == [] then false
    else if origins[0] == origin || origins[0] == Wildcard then true
    else
      var r := IsOriginAllowed(origins[1..], origin);
      assert forall i | 1 <= i < |origins| :: origins[i] == origins[1..][i - 1];
      r
  }

  /** An empty list admits no origin; a list with the wildcard admits every origin. */
  lemma OriginListExtremes(origins: seq<string>, origin: string)
    ensures !IsOriginAllowed([], origin)
    ensures Wildcard in origins ==> IsOriginAllowed(origins, origin)
  {
    if Wildcard in origins {
      var i :| 0 <= i < |origins| && origins[i] == Wildcard;
    }
  }

  /**
   * A setting that ends in a comma has an empty last field, so it lists the empty origin
   * and a request that carries no Origin header at all is treated as allowed.
   */
  lemma EmptyFieldAdmitsMissingOrigin(setting: string)
    requires |setting| > 0 && setting[|setting| - 1] == ','
    ensures IsOriginAllowed(ParseOrigins(setting), "")
  {
    var fields := Split(setting, ',');
    SplitLastEmpty(setting, ',');
    var k := |fields| - 1;
    assert fields[k] == [];
    assert ParseOrigins(setting)[k] == TrimSpace([]);
    assert ParseOrigins(setting)[k] == "";
  }

  /** The function the middleware wraps: a preflight is answered here, anything else goes on. */
  datatype Continuation = AnsweredPreflight(status: int) | CallNext

  /** The headers the middleware sets, with the two origin-dependent ones optional. */
  datatype CorsReply = CorsReply(
    allowOrigin: Option<string>,
    allowCredentials: Option<string>,
    allowMethods: string,
    allowHeaders: string,
    maxAge: string,
    continuation: Continuation)

  /** ", "-separated, as strings.Join with ", ". */
  function JoinComma(parts: seq<string>): string {
    if parts == [] then "" else if |parts| == 1 then parts[0] else parts[0] + ", " + JoinComma(parts[1..])
  }

  /**
   * Handler: echo the origin and allow credentials only for an allowed origin; always
   * set the method, header and max-age headers; answer OPTIONS with 204 without calling
   * the next handler.
   */
  function Handle(m: CorsConfig, origin: string, isOptions: bool): (r: CorsReply)
    ensures r.allowOrigin.Some? <==> IsOriginAllowed(m.allowedOrigins, origin)
    ensures r.allowOrigin.Some? ==> r.allowOrigin.value == origin && r.allowCredentials == Some("true")
    ensures r.allowOrigin.None? ==> r.allowCredentials.None?
    ensures r.maxAge == PreflightMaxAge
    ensures r.continuation == CallNext <==> !isOptions
    ensures isOptions ==> r.continuation == AnsweredPreflight(StatusNoContent)
  {
    var allowed := IsOriginAllowed(m.allowedOrigins, origin);
    CorsReply(
      if allowed then Some(origin) else None,
      if allowed then Some("true") else None,
      JoinComma(m.allowedMethods),
      JoinComma(m.allowedHeaders),
      PreflightMaxAge,
      if isOptions then AnsweredPreflight(StatusNoContent) else CallNext)
  }

  /**
   * With the wildcard configured, every origin is echoed back together with
   * Allow-Credentials "true", so any site can make credentialed requests.
   */
  lemma WildcardEchoesEveryOrigin(setting: string, origin: string, isOptions: bool)
    requires Wildcard in ParseOrigins(setting)
    ensures var r := Handle(NewCORSMiddleware(setting), origin, isOptions);
            r.allowOrigin == Some(origin) && r.allowCredentials == Some("true")
  {
    OriginListExtremes(ParseOrigins(setting), origin);
  }
}
