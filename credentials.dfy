/**
 * The resolved credential values and the failures of a resolution.
 *
 * BasicAuthentication, TokenAuthentication and BearerAuthentication are
 * modelled only as constructors holding the raw strings they are built from;
 * any encoding they apply internally is not part of this model.
 */
module Credentials {
  import opened PhpString

  /** An immutable credential value, tagged with the domain it applies to. */
  datatype Authentication =
    | BasicLogin(domain: string, username: string, password: string)  // BasicAuthentication::fromLoginPassword
    | BasicCredentials(domain: string, credentials: string)          // new BasicAuthentication
    | Token(domain: string, credentials: string)                     // new TokenAuthentication
    | Bearer(domain: string, credentials: string)                    // new BearerAuthentication

  /** One tag per place where an AuthException is thrown. */
  datatype Reason =
    | NoData        // no <domain> element for the host
    | InvalidData   // no `type`, or a non-Basic type without usable `credentials`
    | InvalidBasic  // a Basic record that satisfies neither extraction branch
    | InvalidType   // a type other than Basic, Token or Bearer

  /** Either a credential value or the AuthException that was thrown instead. */
  datatype Resolution = Resolved(auth: Authentication) | AuthException(reason: Reason)

  /** The value of the `type` attribute that selects each kind of credential. */
  function SchemeName(a: Authentication): string {
    match a
    case BasicLogin(_, _, _) => "Basic"
    case BasicCredentials(_, _) => "Basic"
    case Token(_, _) => "Token"
    case Bearer(_, _) => "Bearer"
  }

  /**
   * What every credential value produced by the resolver satisfies: no
   * string it carries is empty in PHP's sense, and a login name never
   * contains the ':' that separates it from the password.
   */
  predicate WellFormed(a: Authentication) {
    match a
    case BasicLogin(_, u, p) => !IsEmpty(u) && ':' !in u && !IsEmpty(p)
    case BasicCredentials(_, c) => !IsEmpty(c)
    case Token(_, c) => !IsEmpty(c)
    case Bearer(_, c) => !IsEmpty(c)
  }
}
