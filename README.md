# Per-domain authentication lookup of phive's AuthXmlConfig

This project models how phive's `AuthXmlConfig` finds the credentials for one host.
It starts from the already-loaded `auth.xml` document and looks for the `<domain>` element whose `host` is the queried domain.
It then reads that element's `type` attribute. The outcome is one of these:
- a Basic credential built from a login/password pair;
- a Basic credential built from a pre-encoded `credentials` string;
- a Token or Bearer credential;
- an `AuthException`.

Everything in the core is a read-only query, so the model is written as functions over an immutable value:
- `XmlStore` holds the document's `<domain>` elements in document order. Each element has a `host` and a map from attribute names to strings.
- `Query` is the node list of the host query. `item(0)` is `Query(..)[0]`.
- `Credentials` holds the credential values and the four failure reasons. There is one reason per `throw`: `NoData`, `InvalidData`, `InvalidBasic` and `InvalidType`.
- `AuthXmlConfig` holds `HasAuthentication`, `GetAuthentication` and `HandleBasicAuthentication`. They follow the PHP branch for branch.
- `AuthXmlConfigProperties` states what `getAuthentication` promises. Each promise is written over the attribute map of the first matching element.

Three details of the PHP carry through the whole model:
- PHP's `empty()` on a string is true for both `""` and `"0"`. So a `credentials`, `username` or `password` of `"0"` counts as missing (`PhpString.IsEmpty`).
- For every type except `Basic`, the `credentials` check (line 46) comes before the type switch (line 52). An unknown type without usable credentials therefore fails as `InvalidData`, not as `InvalidType`.
- A Basic element whose login/password pair is unusable falls through to its `credentials`. This includes a login that contains `:`. The `:` check is applied to the login only, never to the password.

The `switch` at line 52 compares loosely, but `Token` and `Bearer` are not numeric strings, so it is an exact, case-sensitive match. The model uses string equality.
Calling `GetAuthentication` twice on the same document gives the same result, because it is a function.

## Model

| member | source | states |
|---|---|---|
| XmlStore.Query | src/shared/config/AuthXmlConfig.php:16-17 | the host query's node list contains exactly the document's elements whose host equals the domain, and no more of them than the document has |
| XmlStore.QueryHeadIsFirstMatch | src/shared/config/AuthXmlConfig.php:30-34 | `item(0)` of the query result is the earliest element in document order whose host is the domain |
| XmlStore.QueryIgnoresOtherHosts | src/shared/config/AuthXmlConfig.php:30-31 | elements for other hosts placed before the document leave the query result unchanged |
| XmlStore.QueryOfAppend | src/shared/config/AuthXmlConfig.php:30-31 | the query over a document with appended elements is the original result followed by the matches among the appended ones |
| AuthXmlConfig.HasAuthentication | src/shared/config/AuthXmlConfig.php:15-20 | true exactly when some element's host equals the domain; it has no failure case |
| AuthXmlConfig.GetAuthentication | src/shared/config/AuthXmlConfig.php:25-60 | fails with "no authentication data" exactly when `hasAuthentication` is false; every credential it returns carries the queried domain and no empty string, and a login never contains `:` |
| AuthXmlConfig.HandleBasicAuthentication | src/shared/config/AuthXmlConfig.php:65-81 | returns only Basic values for the queried domain, whose strings are non-empty in PHP's sense and whose login has no `:`; its only failure is the invalid-Basic one |
| AuthXmlConfigProperties.MissingTypeIsInvalidData | src/shared/config/AuthXmlConfig.php:34-38 | a first matching element without `type` yields the invalid-data failure, whatever other attributes it has |
| AuthXmlConfigProperties.BasicLoginTakesPrecedence | src/shared/config/AuthXmlConfig.php:66-73 | for type Basic with a non-empty, `:`-free username and a non-empty password, the result is the login/password value with both strings verbatim, even when `credentials` is present |
| AuthXmlConfigProperties.BasicFallsBackToCredentials | src/shared/config/AuthXmlConfig.php:76-78 | for type Basic whose login/password condition fails for any reason, a non-empty `credentials` gives Basic built from that string |
| AuthXmlConfigProperties.BasicWithoutUsableDataIsInvalid | src/shared/config/AuthXmlConfig.php:80 | for type Basic with neither a usable pair nor a non-empty `credentials`, the result is the invalid-Basic failure |
| AuthXmlConfigProperties.TokenAndBearerCarryCredentials | src/shared/config/AuthXmlConfig.php:50-56 | type Token or Bearer with non-empty `credentials` gives the matching variant carrying the queried domain and the credentials unchanged |
| AuthXmlConfigProperties.NonBasicWithoutCredentialsIsInvalidData | src/shared/config/AuthXmlConfig.php:46-48 | any type other than Basic, known or unknown, with `credentials` missing, `""` or `"0"`, gives the invalid-data failure and never the invalid-type one |
| AuthXmlConfigProperties.UnknownTypeIsInvalidType | src/shared/config/AuthXmlConfig.php:52-58 | a type matching none of Basic, Token and Bearer case-sensitively, with non-empty `credentials`, gives the invalid-type failure |
| AuthXmlConfigProperties.ResolutionReflectsFirstRecord | src/shared/config/AuthXmlConfig.php:34-80 | the converse: a credential value names the element's `type` and copies its strings verbatim; each failure reason holds exactly when the element has the shape that throw site rejects; "no data" never occurs when an element matches |
| AuthXmlConfigProperties.ResolutionDependsOnlyOnFirstRecord | src/shared/config/AuthXmlConfig.php:34 | two documents whose first matching elements have equal attributes resolve the domain identically |
| AuthXmlConfigProperties.LaterRecordsAreShadowed | src/shared/config/AuthXmlConfig.php:34 | first match wins: elements appended after an existing match change neither `hasAuthentication` nor `getAuthentication` |
| AuthXmlConfigProperties.OtherHostsAreIgnored | src/shared/config/AuthXmlConfig.php:15-20 | elements for other hosts, inserted at any position of the document, change neither `hasAuthentication` nor `getAuthentication` for the domain |
| AuthXmlConfigProperties.WorkedExamples | src/shared/config/AuthXmlConfig.php:42-80 | concrete cases: bob/x wins over `credentials`; a login `a:b` falls back to `credentials`; a lone username is invalid Basic; Token `tok123` is kept; Token with credentials `"0"` is invalid data |

## Left out

- Loading and querying the XML (`XmlFile::query`, `DOMNodeList`, `DOMElement`) is abstracted. The query becomes exact equality on `host` over the elements in document order.
- A `<domain>` element without a `host` attribute never matches the query, not even for the empty domain. Such elements are left out of the store; they cannot be written as a record with host `""`, which would match the empty domain.
- The domain is pasted unescaped into the XPath expression (lines 16 and 30). The model assumes the domain contains no `"`, because a `"` would change the query itself rather than its argument.
- `BasicAuthentication`, `TokenAuthentication` and `BearerAuthentication` are constructors holding the raw strings. Any base64 or `user:pass` encoding inside them is not part of this model.
- The exception message texts are left out. Each throw site keeps only a reason tag.
- The constructor (lines 11-13) is left out. It only stores the document, which the model passes as the `store` parameter instead.
- tests/shared/versionconstraints/AnyVersionConstraintTest.php is not modelled. It exercises classes whose source is not part of this model.
