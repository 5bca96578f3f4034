/**
 * The already-loaded authentication document, reduced to what the resolver
 * reads from it: its `<domain>` elements in document order, each with its
 * `host` and its other attributes.
 */
module XmlStore {

  /** The attributes of one element, by attribute name. */
  type Attributes = map<string, string>

  /** One `<domain host="...">` element. */
  datatype DomainRecord = DomainRecord(host: string, attributes: Attributes)

  /**
   * The `<domain>` elements of the document that carry a `host` attribute, in
   * document order. An element without `host` never matches the host query,
   * so it is left out rather than given the host "".
   */
  type Store = seq<DomainRecord>

  /** DOMElement::hasAttribute. */
  predicate HasAttribute(node: DomainRecord, name: string) {
    name in node.attributes
  }

  /** DOMElement::getAttribute: the value, or "" when the attribute is absent. */
  function GetAttribute(node: DomainRecord, name: string): string {
    if name in node.attributes then node.attributes[name] else ""
  }

  /**
   * The node list of the query for `<domain>` elements whose host is
   * `domain`: exactly the matching elements, in document order.
   */
  function Query(store: Store, domain: string): (nodes: seq<DomainRecord>)
    ensures |nodes| <= |store|
    ensures forall n :: n in nodes ==> n in store && n.host == domain
    ensures forall i :: 0 <= i < |store| && store[i].host == domain ==> store[i] in nodes
  {
    if store == [] then []
    else if store[0].host == domain then [store[0]] + Query(store[1..], domain)
    else Query(store[1..], domain)
  }

  /** `store[i]` is the earliest element of the document whose host is `domain`. */
  ghost predicate FirstMatchAt(store: Store, domain: string, i: nat) {
    && i < |store|
    && store[i].host == domain
    && forall j :: 0 <= j < i ==> store[j].host != domain
  }

  /** The first node of the query result (`item(0)`) is the earliest matching element. */
  lemma {:induction false} QueryHeadIsFirstMatch(store: Store, domain: string, i: nat)
    requires FirstMatchAt(store, domain, i)
    ensures |Query(store, domain)| > 0 && Query(store, domain)[0] == store[i]
  {
    if i > 0 {
      assert FirstMatchAt(store[1..], domain, i - 1);
      QueryHeadIsFirstMatch(store[1..], domain, i - 1);
    }
  }

  /** Elements for other hosts placed before the matches do not change the query result. */
  lemma {:induction false} QueryIgnoresOtherHosts(other: Store, store: Store, domain: string)
    requires forall j :: 0 <= j < |other| ==> other[j].host != domain
    ensures Query(other + store, domain) == Query(store, domain)
  {
    if other == [] {
      assert other + store == store;
    } else {
      assert (other + store)[0] == other[0] && (other + store)[1..] == other[1..] + store;
      forall j | 0 <= j < |other[1..]| ensures other[1..][j].host != domain {
        assert other[1..][j] == other[j + 1];
      }
      QueryIgnoresOtherHosts(other[1..], store, domain);
      assert Query(other + store, domain) == Query(other[1..] + store, domain);
    }
  }

  /** Elements appended after the document only extend the query result at its end. */
  lemma {:induction false} QueryOfAppend(store: Store, extra: Store, domain: string)
    ensures Query(store + extra, domain) == Query(store, domain) + Query(extra, domain)
  {
    if store == [] {
      assert store + extra == extra;
    } else {
      assert (store + extra)[1..] == store[1..] + extra;
      QueryOfAppend(store[1..], extra, domain);
    }
  }
}
