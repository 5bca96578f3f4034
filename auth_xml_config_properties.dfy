/**
 * What getAuthentication promises, stated over the attributes of the first
 * `<domain>` element for the queried host, independently of how the
 * resolver reads them.
 */
module AuthXmlConfigProperties {
  import opened PhpString
  import opened XmlStore
  import opened Credentials
  import opened AuthXmlConfig

  /** The element carries a non-empty login without ':' and a non-empty password. */
  predicate LoginUsable(a: Attributes) {
    && "username" in a && !IsEmpty(a["username"]) && ':' !in a["username"]
    && "password" in a && !IsEmpty(a["password"])
  }

  /** The element carries a non-empty `credentials` attribute. */
  predicate CredentialsUsable(a: Attributes) {
    "credentials" in a && !IsEmpty(a["credentials"])
  }

  /** An element without a `type` attribute is invalid data, whatever else it holds. */
  lemma MissingTypeIsInvalidData(store: Store, domain: string, i: nat)
    requires FirstMatchAt(store, domain, i)
    requires "type" !in store[i].attributes
    ensures GetAuthentication(store, domain) == AuthException(InvalidData)
  {
    QueryHeadIsFirstMatch(store, domain, i);
  }

  /** A usable login/password pair wins over `credentials`, and is kept verbatim. */
  lemma BasicLoginTakesPrecedence(store: Store, domain: string, i: nat)
    requires FirstMatchAt(store, domain, i)
    requires var a := store[i].attributes; "type" in a && a["type"] == "Basic" && LoginUsable(a)
    ensures var a := store[i].attributes;
      GetAuthentication(store, domain) == Resolved(BasicLogin(domain, a["username"], a["password"]))
  {
    QueryHeadIsFirstMatch(store, domain, i);
  }

  /**
   * When the login/password pair is unusable for any reason (missing, empty,
   * or a ':' in the login), Basic falls back to `credentials`.
   */
  lemma BasicFallsBackToCredentials(store: Store, domain: string, i: nat)
    requires FirstMatchAt(store, domain, i)
    requires var a := store[i].attributes;
      "type" in a && a["type"] == "Basic" && !LoginUsable(a) && CredentialsUsable(a)
    ensures GetAuthentication(store, domain) == Resolved(BasicCredentials(domain, store[i].attributes["credentials"]))
  {
    QueryHeadIsFirstMatch(store, domain, i);
  }

  /** A Basic element with neither a usable pair nor usable `credentials` is rejected. */
  lemma BasicWithoutUsableDataIsInvalid(store: Store, domain: string, i: nat)
    requires FirstMatchAt(store, domain, i)
    requires var a := store[i].attributes;
      "type" in a && a["type"] == "Basic" && !LoginUsable(a) && !CredentialsUsable(a)
    ensures GetAuthentication(store, domain) == AuthException(InvalidBasic)
  {
    QueryHeadIsFirstMatch(store, domain, i);
  }

  /** Token and Bearer carry the queried domain and the `credentials` string unchanged. */
  lemma TokenAndBearerCarryCredentials(store: Store, domain: string, i: nat)
    requires FirstMatchAt(store, domain, i)
    requires var a := store[i].attributes;
      "type" in a && (a["type"] == "Token" || a["type"] == "Bearer") && CredentialsUsable(a)
    ensures var a := store[i].attributes;
      GetAuthentication(store, domain) ==
        if a["type"] == "Token" then Resolved(Token(domain, a["credentials"]))
        else Resolved(Bearer(domain, a["credentials"]))
  {
    QueryHeadIsFirstMatch(store, domain, i);
  }

  /**
   * Any type other than Basic, known or not, without usable `credentials` is
   * invalid data: the credentials check precedes the type dispatch.
   */
  lemma NonBasicWithoutCredentialsIsInvalidData(store: Store, domain: string, i: nat)
    requires FirstMatchAt(store, domain, i)
    requires var a := store[i].attributes; "type" in a && a["type"] != "Basic" && !CredentialsUsable(a)
    ensures GetAuthentication(store, domain) == AuthException(InvalidData)
  {
    QueryHeadIsFirstMatch(store, domain, i);
  }

  /** A type matching none of Basic, Token, Bearer exactly, with usable `credentials`, is an invalid type. */
  lemma UnknownTypeIsInvalidType(store: Store, domain: string, i: nat)
    requires FirstMatchAt(store, domain, i)
    requires var a := store[i].attributes;
      && "type" in a && a["type"] != "Basic" && a["type"] != "Token" && a["type"] != "Bearer"
      && CredentialsUsable(a)
    ensures GetAuthentication(store, domain) == AuthException(InvalidType)
  {
    QueryHeadIsFirstMatch(store, domain, i);
  }

  /**
   * Read backwards: a credential value names the element's type and copies its
   * strings verbatim, and each failure reason pins down the element's shape.
   */
  lemma ResolutionReflectsFirstRecord(store: Store, domain: string, i: nat)
    requires FirstMatchAt(store, domain, i)
    ensures var r, a := GetAuthentication(store, domain), store[i].attributes;
      && r != AuthException(NoData)
      && (r.Resolved? ==> "type" in a && a["type"] == SchemeName(r.auth))
      && (r.Resolved? && r.auth.BasicLogin? ==>
            LoginUsable(a) && a["username"] == r.auth.username && a["password"] == r.auth.password)
      && (r.Resolved? && !r.auth.BasicLogin? ==>
            CredentialsUsable(a) && a["credentials"] == r.auth.credentials)
      && (r == AuthException(InvalidData) <==>
            "type" !in a || (a["type"] != "Basic" && !CredentialsUsable(a)))
      && (r == AuthException(InvalidBasic) <==>
            "type" in a && a["type"] == "Basic" && !LoginUsable(a) && !CredentialsUsable(a))
      && (r == AuthException(InvalidType) <==>
            && "type" in a && a["type"] != "Basic" && a["type"] != "Token" && a["type"] != "Bearer"
            && CredentialsUsable(a))
  {
    QueryHeadIsFirstMatch(store, domain, i);
  }

  /** The outcome depends only on the attributes of the first matching element. */
  lemma ResolutionDependsOnlyOnFirstRecord(s1: Store, s2: Store, domain: string, i: nat, j: nat)
    requires FirstMatchAt(s1, domain, i) && FirstMatchAt(s2, domain, j)
    requires s1[i].attributes == s2[j].attributes
    ensures GetAuthentication(s1, domain) == GetAuthentication(s2, domain)
  {
    QueryHeadIsFirstMatch(s1, domain, i);
    QueryHeadIsFirstMatch(s2, domain, j);
  }

  /** First match wins: elements added after an existing match never change the outcome. */
  lemma LaterRecordsAreShadowed(store: Store, extra: Store, domain: string)
    requires HasAuthentication(store, domain)
    ensures HasAuthentication(store + extra, domain)
    ensures GetAuthentication(store + extra, domain) == GetAuthentication(store, domain)
  {
    QueryOfAppend(store, extra, domain);
  }

  /** Both queries see the document only through the host query's node list. */
  lemma SameNodesSameResolution(s1: Store, s2: Store, domain: string)
    requires Query(s1, domain) == Query(s2, domain)
    ensures HasAuthentication(s1, domain) == HasAuthentication(s2, domain)
    ensures GetAuthentication(s1, domain) == GetAuthentication(s2, domain)
  {
  }

  /** Elements for other hosts, inserted anywhere in the document, affect neither query for `domain`. */
  lemma OtherHostsAreIgnored(pre: Store, other: Store, post: Store, domain: string)
    requires forall j :: 0 <= j < |other| ==> other[j].host != domain
    ensures HasAuthentication(pre + other + post, domain) == HasAuthentication(pre + post, domain)
    ensures GetAuthentication(pre + other + post, domain) == GetAuthentication(pre + post, domain)
  {
    var rest := other + post;
    assert pre + other + post == pre + rest;
    QueryOfAppend(pre, rest, domain);
    QueryIgnoresOtherHosts(other, post, domain);
    QueryOfAppend(pre, post, domain);
    SameNodesSameResolution(pre + other + post, pre + post, domain);
  }

  /** Concrete cases: precedence, the ':' fallback, total Basic failure, Token. */
  lemma WorkedExamples()
    ensures GetAuthentication([DomainRecord("example.org",
              map["type" := "Basic", "username" := "bob", "password" := "x", "credentials" := "ignored"])],
              "example.org") == Resolved(BasicLogin("example.org", "bob", "x"))
    ensures GetAuthentication([DomainRecord("example.org",
              map["type" := "Basic", "username" := "a:b", "password" := "x", "credentials" := "opaque"])],
              "example.org") == Resolved(BasicCredentials("example.org", "opaque"))
    ensures GetAuthentication([DomainRecord("example.org",
              map["type" := "Basic", "username" := "bob"])],
              "example.org") == AuthException(InvalidBasic)
    ensures GetAuthentication([DomainRecord("example.org",
              map["type" := "Token", "credentials" := "tok123"])],
              "example.org") == Resolved(Token("example.org", "tok123"))
    ensures GetAuthentication([DomainRecord("example.org",
              map["type" := "Token", "credentials" := "0"])],
              "example.org") == AuthException(InvalidData)
  {
  }
}
