/**
 Exact-match lookups on the `cards` table: uri by id, id by uri, and the full
 rows for a uri. A single-row lookup reads the first row of the result, taken
 here to be the first matching row in table order.
 */
module CardLookup {
  import opened CardTables

  /** `id` is the primary key of `cards`. */
  predicate UniqueIds(cards: seq<Card>) {
    forall i, j :: 0 <= i < j < |cards| ==> cards[i].id != cards[j].id
  }

  predicate UniqueUris(cards: seq<Card>) {
    forall i, j :: 0 <= i < j < |cards| ==> cards[i].uri != cards[j].uri
  }

  /** `getCardUri(id)`: the uri of the first card with that id. On a miss the
      source indexes the `false` that `fetch` returns and yields null, modelled
      as `None`. */
  function GetCardUri(cards: seq<Card>, id: int): (uri: Option<string>)
    ensures uri.None? <==> forall k :: 0 <= k < |cards| ==> cards[k].id != id
    ensures uri.Some? ==>
      exists k :: 0 <= k < |cards| && cards[k].id == id && cards[k].uri == uri.value
        && forall j :: 0 <= j < k ==> cards[j].id != id
  {
    match FirstIndex(cards, (c: Card) => c.id == id)
    case None => None
    case Some(k) => Some(cards[k].uri)
  }

  /** `getCardId(uri)`: the id of the first card with that uri, and 0 when no
      card has it (the `(int)` cast of the null a miss yields). */
  function GetCardId(cards: seq<Card>, uri: string): (id: int)
    ensures (forall k :: 0 <= k < |cards| ==> cards[k].uri != uri) ==> id == 0
    ensures (exists k :: 0 <= k < |cards| && cards[k].uri == uri) ==>
      exists k :: 0 <= k < |cards| && cards[k].uri == uri && cards[k].id == id
        && forall j :: 0 <= j < k ==> cards[j].uri != uri
  {
    match FirstIndex(cards, (c: Card) => c.uri == uri)
    case None => 0
    case Some(k) => cards[k].id
  }

  /** The same lookup with an explicit "not found": `getCardId` is this with
      absence collapsed to 0. */
  function LookupCardId(cards: seq<Card>, uri: string): (id: Option<int>)
    ensures id.None? <==> forall k :: 0 <= k < |cards| ==> cards[k].uri != uri
    ensures id.Some? ==> exists k :: 0 <= k < |cards| && cards[k].uri == uri && cards[k].id == id.value
  {
    if |cards| == 0 then None
    else if cards[0].uri == uri then Some(cards[0].id)
    else LookupCardId(cards[1..], uri)
  }

  /** `getContact(uri)`: every card row whose uri is `uri`, each once, in table order. */
  function GetContact(cards: seq<Card>, uri: string): (contacts: seq<Card>)
    ensures |contacts| <= |cards|
    ensures forall c :: c in contacts <==> c in cards && c.uri == uri
  {
    if |cards| == 0 then []
    else if cards[0].uri == uri then [cards[0]] + GetContact(cards[1..], uri)
    else GetContact(cards[1..], uri)
  }

  /** Each matching row is returned as often as the table holds it, so no row
      is repeated or dropped, and no other row appears. */
  lemma {:induction false} GetContactKeepsRows(cards: seq<Card>, uri: string)
    ensures forall c ::
      multiset(GetContact(cards, uri))[c] == if c.uri == uri then multiset(cards)[c] else 0
  {
    if |cards| > 0 {
      GetContactKeepsRows(cards[1..], uri);
      assert cards == [cards[0]] + cards[1..];
    }
  }

  /** `getCardId` is the explicit lookup with a miss read as 0. */
  lemma {:induction false} CardIdIsLookupOrZero(cards: seq<Card>, uri: string)
    ensures GetCardId(cards, uri) == LookupCardId(cards, uri).GetOr(0)
  {
    if |cards| > 0 && cards[0].uri != uri {
      CardIdIsLookupOrZero(cards[1..], uri);
      assert GetCardId(cards, uri) == GetCardId(cards[1..], uri) by {
        var p := (c: Card) => c.uri == uri;
        assert FirstIndex(cards, p) == match FirstIndex(cards[1..], p)
          case None => None
          case Some(j) => Some(j + 1);
      }
    }
  }

  /** The 0 returned on a miss cannot be told apart from a hit on a card whose
      id is 0: whenever the first card with `uri` has id 0, `getCardId` answers
      as for an empty table, while the explicit lookup tells the two apart. */
  lemma CardIdZeroIsAmbiguous(cards: seq<Card>, uri: string, k: nat)
    requires k < |cards| && cards[k].uri == uri && cards[k].id == 0
    requires forall j :: 0 <= j < k ==> cards[j].uri != uri
    ensures GetCardId(cards, uri) == GetCardId([], uri)
    ensures LookupCardId(cards, uri) != LookupCardId([], uri)
  {
    var id := GetCardId(cards, uri);
    var i :| 0 <= i < |cards| && cards[i].uri == uri && cards[i].id == id
      && forall j :: 0 <= j < i ==> cards[j].uri != uri;
    assert i == k;
  }

  /** `getContact` and `getCardId` agree: the first contact row carries the id
      `getCardId` returns, and no contact row means 0. */
  lemma {:induction false} ContactAgreesWithCardId(cards: seq<Card>, uri: string)
    ensures GetContact(cards, uri) == [] ==> GetCardId(cards, uri) == 0
    ensures GetContact(cards, uri) != [] ==> GetCardId(cards, uri) == GetContact(cards, uri)[0].id
  {
    if |cards| > 0 && cards[0].uri != uri {
      ContactAgreesWithCardId(cards[1..], uri);
      CardIdIsLookupOrZero(cards, uri);
      CardIdIsLookupOrZero(cards[1..], uri);
    }
  }

  /** With ids unique, the uri found for the id found for `uri` is `uri` again. */
  lemma UriIdRoundTrip(cards: seq<Card>, uri: string)
    requires UniqueIds(cards)
    requires exists k :: 0 <= k < |cards| && cards[k].uri == uri
    ensures GetCardUri(cards, GetCardId(cards, uri)) == Some(uri)
  {
    var id := GetCardId(cards, uri);
    var k :| 0 <= k < |cards| && cards[k].uri == uri && cards[k].id == id;
    var found := GetCardUri(cards, id);
    var j :| 0 <= j < |cards| && cards[j].id == id && cards[j].uri == found.value
      && forall i :: 0 <= i < j ==> cards[i].id != id;
    assert j == k;
  }

  /** With uris unique, the id found for the uri found for `id` is `id` again. */
  lemma IdUriRoundTrip(cards: seq<Card>, id: int)
    requires UniqueUris(cards)
    requires exists k :: 0 <= k < |cards| && cards[k].id == id
    ensures GetCardUri(cards, id).Some?
    ensures GetCardId(cards, GetCardUri(cards, id).value) == id
  {
    var uri := GetCardUri(cards, id).value;
    var k :| 0 <= k < |cards| && cards[k].id == id && cards[k].uri == uri;
    var j :| 0 <= j < |cards| && cards[j].uri == uri && cards[j].id == GetCardId(cards, uri);
    assert j == k;
  }
}
