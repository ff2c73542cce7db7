/**
 * The security-headers middleware: after the wrapped service has produced a
 * response, and only when the configuration is enabled, it inserts up to
 * seven security headers. Four of them are inserted only when their
 * configured value is non-empty; a configured value that is not a legal
 * header value is replaced by that header's fixed fallback. `insert`
 * replaces every earlier value of the same header and leaves the other
 * headers alone.
 */
module Headers {
  import opened Wrappers
  import opened Text
  import opened ConfigSecurity

  /** The seven headers the middleware may insert. */
  datatype SecurityHeader =
    | ContentSecurityPolicy
    | StrictTransportSecurity
    | XFrameOptions
    | XContentTypeOptions
    | ReferrerPolicy
    | XXssProtection
    | XPermittedCrossDomainPolicies
  {
    /** The lower-case name the header map stores. */
    function Name(): string
    {
      match this
      case ContentSecurityPolicy => "content-security-policy"
      case StrictTransportSecurity => "strict-transport-security"
      case XFrameOptions => "x-frame-options"
      case XContentTypeOptions => "x-content-type-options"
      case ReferrerPolicy => "referrer-policy"
      case XXssProtection => "x-xss-protection"
      case XPermittedCrossDomainPolicies => "x-permitted-cross-domain-policies"
    }
  }

  /** Any other header name. */
  type OtherName = s: string | forall h: SecurityHeader :: h.Name() != s witness "content-type"

  /** A header name: one of the seven, or another one, so that equal names are equal keys. */
  datatype HeaderName = Security(header: SecurityHeader) | Other(name: OtherName)

  const AllSecurityHeaders: set<HeaderName> :=
    {Security(ContentSecurityPolicy), Security(StrictTransportSecurity), Security(XFrameOptions),
     Security(XContentTypeOptions), Security(ReferrerPolicy), Security(XXssProtection),
     Security(XPermittedCrossDomainPolicies)}

  // Fallbacks for rejected configured values, and the two fixed values.
  const CspFallback: string := "default-src 'self'"
  const HstsPrefix: string := "max-age="
  const HstsSuffix: string := "; includeSubDomains"
  const HstsFallback: string := HstsPrefix + "31536000" + HstsSuffix
  const FrameOptionsFallback: string := "DENY"
  const ContentTypeOptionsFallback: string := "nosniff"
  const ReferrerPolicyFallback: string := "strict-origin-when-cross-origin"
  const XssProtectionValue: string := "1; mode=block"
  const CrossDomainPoliciesValue: string := "none"

  /**
   * A byte `HeaderValue::from_str` accepts: visible ASCII, space and tab.
   * Characters from U+0080 up are encoded as bytes >= 0x80, which it also accepts.
   */
  predicate IsHeaderValueChar(c: char)
  {
    (' ' <= c && c != 127 as char) || c == '\t'
  }

  predicate IsHeaderValue(s: string)
  {
    forall i :: 0 <= i < |s| ==> IsHeaderValueChar(s[i])
  }

  /** `HeaderValue::from_str(s).unwrap_or_else(|_| fallback)`. */
  function ValueOr(s: string, fallback: string): string
  {
    if IsHeaderValue(s) then s else fallback
  }

  /** The HSTS directive `max-age=<seconds>; includeSubDomains` (section 6.1 of RFC 6797). */
  function HstsValue(maxAge: nat): string
  {
    HstsPrefix + NatToDecimal(maxAge) + HstsSuffix
  }

  /**
   * What an enabled middleware puts under each security header, or None
   * when it leaves that header alone: the reference table of the insertions.
   * Only the four configurable headers other than HSTS are ever left
   * alone, and exactly when they are configured empty.
   */
  function Inserted(c: SecurityHeadersConfig, h: SecurityHeader): (r: Option<string>)
    ensures r.None? <==>
      || (h == ContentSecurityPolicy && c.csp == "")
      || (h == XFrameOptions && c.xFrameOptions == "")
      || (h == XContentTypeOptions && c.xContentTypeOptions == "")
      || (h == ReferrerPolicy && c.referrerPolicy == "")
  {
    match h
    case ContentSecurityPolicy =>
      if c.csp == "" then None else Some(ValueOr(c.csp, CspFallback))
    case StrictTransportSecurity => Some(ValueOr(HstsValue(c.hstsMaxAge), HstsFallback))
    case XFrameOptions =>
      if c.xFrameOptions == "" then None else Some(ValueOr(c.xFrameOptions, FrameOptionsFallback))
    case XContentTypeOptions =>
      if c.xContentTypeOptions == "" then None
      else Some(ValueOr(c.xContentTypeOptions, ContentTypeOptionsFallback))
    case ReferrerPolicy =>
      if c.referrerPolicy == "" then None else Some(ValueOr(c.referrerPolicy, ReferrerPolicyFallback))
    case XXssProtection => Some(XssProtectionValue)
    case XPermittedCrossDomainPolicies => Some(CrossDomainPoliciesValue)
  }

  function InsertedAt(c: SecurityHeadersConfig, n: HeaderName): Option<string>
  {
    if n.Security? then Inserted(c, n.header) else None
  }

  /** A header map: each name with its values, in order. */
  type HeaderMap = map<HeaderName, seq<string>>

  /** One `if ... { headers.insert(name, ..) }` step of the middleware, as the table says. */
  function Apply(m: HeaderMap, c: SecurityHeadersConfig, h: SecurityHeader): HeaderMap
  {
    if Inserted(c, h).Some? then m[Security(h) := [Inserted(c, h).value]] else m
  }

  /** A step leaves every name but its own header's alone. */
  lemma ApplyElsewhere(m: HeaderMap, c: SecurityHeadersConfig, h: SecurityHeader, n: HeaderName)
    requires n != Security(h)
    ensures n in Apply(m, c, h) <==> n in m
    ensures n in m ==> Apply(m, c, h)[n] == m[n]
  {
  }

  /** A step inserts its header's table value, if the table has one. */
  lemma ApplyHere(m: HeaderMap, c: SecurityHeadersConfig, h: SecurityHeader)
    ensures Security(h) in Apply(m, c, h) <==> Security(h) in m || Inserted(c, h).Some?
    ensures Security(h) in Apply(m, c, h) ==>
      Apply(m, c, h)[Security(h)] == if Inserted(c, h).Some? then [Inserted(c, h).value] else m[Security(h)]
  {
  }

  /**
   * The headers after an enabled middleware: the seven steps, in source
   * order. Whatever the order of the steps, each inserted header ends up
   * with exactly its one value from the table, and every other header,
   * the security headers left alone included, keeps all its values.
   */
  function Secured(m: HeaderMap, c: SecurityHeadersConfig): (r: HeaderMap)
    ensures forall n :: n in r <==> n in m || InsertedAt(c, n).Some?
    ensures forall n :: n in r ==> r[n] == if InsertedAt(c, n).Some? then [InsertedAt(c, n).value] else m[n]
  {
    var m1 := Apply(m, c, ContentSecurityPolicy);
    var m2 := Apply(m1, c, StrictTransportSecurity);
    var m3 := Apply(m2, c, XFrameOptions);
    var m4 := Apply(m3, c, XContentTypeOptions);
    var m5 := Apply(m4, c, ReferrerPolicy);
    var m6 := Apply(m5, c, XXssProtection);
    var r := Apply(m6, c, XPermittedCrossDomainPolicies);
    assert forall n :: && (n in r <==> n in m || InsertedAt(c, n).Some?)
                       && (n in r ==> r[n] == if InsertedAt(c, n).Some? then [InsertedAt(c, n).value] else m[n]) by {
      forall n ensures && (n in r <==> n in m || InsertedAt(c, n).Some?)
                       && (n in r ==> r[n] == if InsertedAt(c, n).Some? then [InsertedAt(c, n).value] else m[n]) {
        if n == Security(ContentSecurityPolicy) { ApplyHere(m, c, ContentSecurityPolicy); } else { ApplyElsewhere(m, c, ContentSecurityPolicy, n); }
        if n == Security(StrictTransportSecurity) { ApplyHere(m1, c, StrictTransportSecurity); } else { ApplyElsewhere(m1, c, StrictTransportSecurity, n); }
        if n == Security(XFrameOptions) { ApplyHere(m2, c, XFrameOptions); } else { ApplyElsewhere(m2, c, XFrameOptions, n); }
        if n == Security(XContentTypeOptions) { ApplyHere(m3, c, XContentTypeOptions); } else { ApplyElsewhere(m3, c, XContentTypeOptions, n); }
        if n == Security(ReferrerPolicy) { ApplyHere(m4, c, ReferrerPolicy); } else { ApplyElsewhere(m4, c, ReferrerPolicy, n); }
        if n == Security(XXssProtection) { ApplyHere(m5, c, XXssProtection); } else { ApplyElsewhere(m5, c, XXssProtection, n); }
        if n == Security(XPermittedCrossDomainPolicies) { ApplyHere(m6, c, XPermittedCrossDomainPolicies); } else { ApplyElsewhere(m6, c, XPermittedCrossDomainPolicies, n); }
      }
    }
    r
  }

  /** The part of a response the middleware sees. */
  class Response {
    var status: nat
    var headers: HeaderMap

    constructor (status: nat, headers: HeaderMap)
      ensures this.status == status && this.headers == headers
    {
      this.status := status;
      this.headers := headers;
    }

    /** `HeaderMap::insert`: `name` now has exactly `value`. */
    method Insert(name: HeaderName, value: string)
      modifies this
      ensures headers == old(headers)[name := [value]]
      ensures status == old(status)
    {
      headers := headers[name := [value]];
    }

    /**
     * The body of the middleware's `call` after the inner service returned:
     * the status is never consulted, so every status gets the same headers.
     */
    method AddSecurityHeaders(config: SecurityHeadersConfig)
      modifies this
      ensures status == old(status)
      ensures !config.enabled ==> headers == old(headers)
      ensures config.enabled ==> headers == Secured(old(headers), config)
    {
      if !config.enabled {
        return;
      }
      ghost var m0 := headers;
      if config.csp != "" {
        Insert(Security(ContentSecurityPolicy), ValueOr(config.csp, CspFallback));
      }
      ghost var m1 := headers;
      assert m1 == Apply(m0, config, ContentSecurityPolicy);
      Insert(Security(StrictTransportSecurity), ValueOr(HstsValue(config.hstsMaxAge), HstsFallback));
      ghost var m2 := headers;
      assert m2 == Apply(m1, config, StrictTransportSecurity);
      if config.xFrameOptions != "" {
        Insert(Security(XFrameOptions), ValueOr(config.xFrameOptions, FrameOptionsFallback));
      }
      ghost var m3 := headers;
      assert m3 == Apply(m2, config, XFrameOptions);
      if config.xContentTypeOptions != "" {
        Insert(Security(XContentTypeOptions),
               ValueOr(config.xContentTypeOptions, ContentTypeOptionsFallback));
      }
      ghost var m4 := headers;
      assert m4 == Apply(m3, config, XContentTypeOptions);
      if config.referrerPolicy != "" {
        Insert(Security(ReferrerPolicy), ValueOr(config.referrerPolicy, ReferrerPolicyFallback));
      }
      ghost var m5 := headers;
      assert m5 == Apply(m4, config, ReferrerPolicy);
      Insert(Security(XXssProtection), XssProtectionValue);
      Insert(Security(XPermittedCrossDomainPolicies), CrossDomainPoliciesValue);
    }
  }

  /** The value used is the configured one when legal and the fallback otherwise; both are legal values. */
  lemma ValueOrLegal(s: string, fallback: string)
    requires IsHeaderValue(fallback)
    ensures IsHeaderValue(ValueOr(s, fallback))
    ensures ValueOr(s, fallback) == s <==> IsHeaderValue(s) || s == fallback
  {
  }

  lemma HeaderValueAppend(a: string, b: string)
    requires IsHeaderValue(a) && IsHeaderValue(b)
    ensures IsHeaderValue(a + b)
  {
    assert forall i :: |a| <= i < |a + b| ==> (a + b)[i] == b[i - |a|];
  }

  lemma DigitsAreHeaderValue(s: string)
    requires forall i :: 0 <= i < |s| ==> IsDigit(s[i])
    ensures IsHeaderValue(s)
  {
  }

  /**
   * The HSTS value is always a legal header value, so its fallback is never
   * used; it is `max-age=` followed by the decimal digits of the configured
   * seconds, without leading zeros, and `; includeSubDomains`.
   */
  lemma HstsIsConfiguredValue(c: SecurityHeadersConfig)
    ensures IsHeaderValue(HstsValue(c.hstsMaxAge))
    ensures Inserted(c, StrictTransportSecurity) == Some(HstsValue(c.hstsMaxAge))
    ensures exists digits :: HstsValue(c.hstsMaxAge) == HstsPrefix + digits + HstsSuffix
                             && (forall i :: 0 <= i < |digits| ==> IsDigit(digits[i]))
                             && DecimalValue(digits) == c.hstsMaxAge
                             && (digits[0] == '0' ==> c.hstsMaxAge == 0)
  {
    var digits := NatToDecimal(c.hstsMaxAge);
    DecimalRoundTrip(c.hstsMaxAge);
    DigitsAreHeaderValue(digits);
    HeaderValueAppend(HstsPrefix, digits);
    HeaderValueAppend(HstsPrefix + digits, HstsSuffix);
  }

  // The fixed values are legal header values, one literal per lemma.
  lemma CspFallbackLegal()
    ensures IsHeaderValue(CspFallback)
  {
  }

  lemma FrameOptionsFallbackLegal()
    ensures IsHeaderValue(FrameOptionsFallback)
  {
  }

  lemma ContentTypeOptionsFallbackLegal()
    ensures IsHeaderValue(ContentTypeOptionsFallback)
  {
  }

  lemma ReferrerPolicyFallbackLegal()
    ensures IsHeaderValue(ReferrerPolicyFallback)
  {
  }

  lemma XssProtectionValueLegal()
    ensures IsHeaderValue(XssProtectionValue)
  {
  }

  lemma CrossDomainPoliciesValueLegal()
    ensures IsHeaderValue(CrossDomainPoliciesValue)
  {
  }

  /** Every value the middleware inserts is a legal header value. */
  lemma InsertedValuesLegal(c: SecurityHeadersConfig, h: SecurityHeader)
    ensures Inserted(c, h).Some? ==> IsHeaderValue(Inserted(c, h).value)
  {
    match h
    case ContentSecurityPolicy => CspFallbackLegal(); ValueOrLegal(c.csp, CspFallback);
    case StrictTransportSecurity => HstsIsConfiguredValue(c);
    case XFrameOptions => FrameOptionsFallbackLegal(); ValueOrLegal(c.xFrameOptions, FrameOptionsFallback);
    case XContentTypeOptions =>
      ContentTypeOptionsFallbackLegal(); ValueOrLegal(c.xContentTypeOptions, ContentTypeOptionsFallback);
    case ReferrerPolicy => ReferrerPolicyFallbackLegal(); ValueOrLegal(c.referrerPolicy, ReferrerPolicyFallback);
    case XXssProtection => XssProtectionValueLegal();
    case XPermittedCrossDomainPolicies => CrossDomainPoliciesValueLegal();
  }

  /** A configured value with a control character (a newline, say) is replaced by the fallback. */
  lemma IllegalValueFallsBack(c: SecurityHeadersConfig, i: nat)
    requires i < |c.csp| && c.csp[i] < ' ' && c.csp[i] != '\t'
    ensures Inserted(c, ContentSecurityPolicy) == Some(CspFallback)
  {
  }

  /** Running the middleware twice adds nothing to running it once. */
  lemma SecuredIdempotent(m: HeaderMap, c: SecurityHeadersConfig)
    ensures Secured(Secured(m, c), c) == Secured(m, c)
  {
  }

  /** The default HSTS lifetime, one year, gives exactly the fallback directive. */
  lemma DefaultHstsValue()
    ensures HstsValue(DefaultSecurityHeadersConfig.hstsMaxAge) == HstsFallback
  {
    DefaultHstsDigits();
  }

  lemma DefaultHstsDigits()
    ensures NatToDecimal(31536000) == "31536000"
  {
    assert NatToDecimal(3) == "3";
    assert NatToDecimal(31) == "31";
    assert NatToDecimal(315) == "315";
    assert NatToDecimal(3153) == "3153";
    assert NatToDecimal(31536) == "31536";
    assert NatToDecimal(315360) == "315360";
    assert NatToDecimal(3153600) == "3153600";
    assert NatToDecimal(31536000) == "31536000";
  }

  /** The default configuration inserts all seven headers, each with the value the defaults name. */
  lemma DefaultConfigValues()
    ensures Inserted(DefaultSecurityHeadersConfig, ContentSecurityPolicy) == Some(CspFallback)
    ensures Inserted(DefaultSecurityHeadersConfig, StrictTransportSecurity) == Some(HstsFallback)
    ensures Inserted(DefaultSecurityHeadersConfig, XFrameOptions) == Some(FrameOptionsFallback)
    ensures Inserted(DefaultSecurityHeadersConfig, XContentTypeOptions) == Some(ContentTypeOptionsFallback)
    ensures Inserted(DefaultSecurityHeadersConfig, ReferrerPolicy) == Some(ReferrerPolicyFallback)
  {
    DefaultHstsValue();
  }

  /** Whatever the response carried, the default configuration leaves all seven headers set. */
  lemma DefaultConfigInsertsAll(m: HeaderMap)
    ensures forall h :: Security(h) in Secured(m, DefaultSecurityHeadersConfig)
  {
  }

  /** With an empty CSP the CSP header is left as it was, and the other headers are still inserted. */
  lemma EmptyCspNotAdded(m: HeaderMap, c: SecurityHeadersConfig)
    requires c.csp == ""
    ensures Security(ContentSecurityPolicy) in Secured(m, c) <==> Security(ContentSecurityPolicy) in m
    ensures Security(StrictTransportSecurity) in Secured(m, c)
  {
  }
}
