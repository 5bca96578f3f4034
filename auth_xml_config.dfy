/**
 * AuthXmlConfig: per-domain authentication lookup over a loaded
 * authentication document. The document is a parameter (`store`) instead of
 * a field, since the source sets it once in the constructor and never
 * changes it.
 */
module AuthXmlConfig {
  import opened PhpString
  import opened XmlStore
  import opened Credentials

  /** hasAuthentication: whether the document has a `<domain>` element for `domain`. */
  function HasAuthentication(store: Store, domain: string): (found: bool)
    ensures found <==> exists i :: 0 <= i < |store| && store[i].host == domain
  {
    var nodes := Query(store, domain);
    assert |nodes| > 0 ==> nodes[0] in nodes;
    |nodes| > 0
  }

  /**
   * getAuthentication: the credential value described by the first
   * `<domain>` element for `domain`, or the AuthException thrown instead.
   */
  function GetAuthentication(store: Store, domain: string): (r: Resolution)
    ensures r == AuthException(NoData) <==> !HasAuthentication(store, domain)
    ensures r.Resolved? ==> r.auth.domain == domain && WellFormed(r.auth)
  {
    if !HasAuthentication(store, domain) then
      AuthException(NoData)
    else
      var auth := Query(store, domain)[0];
      if !HasAttribute(auth, "type") then
        AuthException(InvalidData)
      else
        var authType := GetAttribute(auth, "type");
        if authType == "Basic" then
          HandleBasicAuthentication(domain, auth)
        else if !HasAttribute(auth, "credentials") || IsEmpty(GetAttribute(auth, "credentials")) then
          AuthException(InvalidData)
        else
          var authCredentials := GetAttribute(auth, "credentials");
          if authType == "Token" then
            Resolved(Token(domain, authCredentials))
          else if authType == "Bearer" then
            Resolved(Bearer(domain, authCredentials))
          else
            AuthException(InvalidType)
  }

  /**
   * handleBasicAuthentication: a login/password pair when the element has a
   * usable one, else its pre-encoded `credentials`, else an AuthException.
   */
  function HandleBasicAuthentication(domain: string, node: DomainRecord): (r: Resolution)
    ensures r.Resolved? ==> r.auth.domain == domain && SchemeName(r.auth) == "Basic" && WellFormed(r.auth)
    ensures r.AuthException? ==> r.reason == InvalidBasic
  {
    if && HasAttribute(node, "username")
       && !IsEmpty(GetAttribute(node, "username"))
       && ':' !in GetAttribute(node, "username")
       && HasAttribute(node, "password")
       && !IsEmpty(GetAttribute(node, "password"))
    then
      Resolved(BasicLogin(domain, GetAttribute(node, "username"), GetAttribute(node, "password")))
    else if HasAttribute(node, "credentials") && !IsEmpty(GetAttribute(node, "credentials")) then
      Resolved(BasicCredentials(domain, GetAttribute(node, "credentials")))
    else
      AuthException(InvalidBasic)
  }
}
