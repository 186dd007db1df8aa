/**
 `searchContact`: the serialized vCards of every card in an address book that
 has an index row, under one of the requested property names, whose value
 contains the search pattern literally. The query joins `cards` to
 `cards_properties` on the card id and selects distinct `carddata`.
 */
module CardSearch {
  import opened CardTables
  import opened Text
  import opened PropertyIndex

  /** The OR group built from the requested fields, one
      `name = field AND value LIKE '%pattern%'` disjunct per field, in order. */
  function OrGroup(row: PropertyRow, pattern: string, fields: seq<string>): (hit: bool)
    ensures hit <==> row.name in fields && Contains(row.value, pattern)
  {
    if |fields| == 0 then false
    else (row.name == fields[0] && Contains(row.value, pattern)) || OrGroup(row, pattern, fields[1..])
  }

  /** The whole WHERE clause on one joined index row: the OR group, AND the address book. */
  predicate RowMatches(row: PropertyRow, addressBookId: int, pattern: string, fields: seq<string>) {
    OrGroup(row, pattern, fields) && row.addressBookId == addressBookId
  }

  /** The card joins with at least one index row meeting the WHERE clause. */
  predicate CardMatches(card: Card, props: seq<PropertyRow>, addressBookId: int, pattern: string, fields: seq<string>) {
    exists r :: r in props && r.cardId == card.id && RowMatches(r, addressBookId, pattern, fields)
  }

  /** The `carddata` of each matching card, in table order, before DISTINCT. */
  function MatchingData(cards: seq<Card>, props: seq<PropertyRow>, addressBookId: int, pattern: string, fields: seq<string>)
    : (data: seq<string>)
    ensures forall d :: d in data <==>
      exists c :: c in cards && c.cardData == d && CardMatches(c, props, addressBookId, pattern, fields)
  {
    if |cards| == 0 then []
    else
      var rest := MatchingData(cards[1..], props, addressBookId, pattern, fields);
      assert forall c :: c in cards <==> c == cards[0] || c in cards[1..];
      if CardMatches(cards[0], props, addressBookId, pattern, fields) then [cards[0].cardData] + rest
      else rest
  }

  predicate NoDuplicates<T(==)>(s: seq<T>) {
    forall i, j :: 0 <= i < j < |s| ==> s[i] != s[j]
  }

  /** DISTINCT: the same elements, each once. */
  function Distinct(s: seq<string>): (d: seq<string>)
    ensures forall x :: x in d <==> x in s
    ensures NoDuplicates(d)
  {
    if |s| == 0 then []
    else if s[0] in s[1..] then Distinct(s[1..])
    else
      var rest := Distinct(s[1..]);
      assert forall j :: 0 < j < |[s[0]] + rest| ==> ([s[0]] + rest)[j] in rest;
      [s[0]] + rest
  }

  /** `searchContact(addressBookId, pattern, fields)`: the distinct `carddata`
      of the cards having an index row in that address book, named by one of
      `fields`, whose value contains `pattern`. */
  function SearchContact(cards: seq<Card>, props: seq<PropertyRow>, addressBookId: int, pattern: string, fields: seq<string>)
    : (result: seq<string>)
    requires |fields| > 0
    ensures NoDuplicates(result)
    ensures forall d :: d in result <==>
      exists c, r :: c in cards && r in props
        && r.cardId == c.id
        && r.addressBookId == addressBookId
        && r.name in fields
        && Contains(r.value, pattern)
        && c.cardData == d
  {
    Distinct(MatchingData(cards, props, addressBookId, pattern, fields))
  }

  /** The empty pattern matches every value: the search returns every card
      with at least one index row in the address book under a requested name. */
  lemma SearchEmptyPattern(cards: seq<Card>, props: seq<PropertyRow>, addressBookId: int, fields: seq<string>)
    requires |fields| > 0
    ensures forall d :: d in SearchContact(cards, props, addressBookId, "", fields) <==>
      exists c, r :: c in cards && r in props
        && r.cardId == c.id
        && r.addressBookId == addressBookId
        && r.name in fields
        && c.cardData == d
  {
    forall r | r in props
      ensures Contains(r.value, "")
    {
      ContainsEmpty(r.value);
    }
  }

  /** Once a card has been indexed, searching its address book for any
      substring of a stored value, under that property's name, finds the card. */
  lemma SearchFindsIndexedValue(
    cards: seq<Card>, table: seq<PropertyRow>, addressBookId: int, card: Card,
    vcard: VCard, p: Property, pattern: string, fields: seq<string>)
    requires card in cards
    requires p in vcard && IsIndexed(p.name) && p.name in fields
    requires exists i :: OccursAt(Truncate(p.value), pattern, i)
    ensures card.cardData in
      SearchContact(cards, UpdateProperties(table, addressBookId, card.id, vcard), addressBookId, pattern, fields)
  {
    var updated := UpdateProperties(table, addressBookId, card.id, vcard);
    var row := IndexRow(addressBookId, card.id, p);
    DeriveCoversChildren(addressBookId, card.id, vcard, p);
    assert row in updated && Contains(row.value, pattern);
  }

  /** A pattern longer than any stored value finds nothing in a well-formed index. */
  lemma SearchLongPatternFindsNothing(
    cards: seq<Card>, props: seq<PropertyRow>, addressBookId: int, pattern: string, fields: seq<string>)
    requires |fields| > 0
    requires WellFormed(props)
    requires |pattern| > MaxValueLength
    ensures SearchContact(cards, props, addressBookId, pattern, fields) == []
  {
    forall r | r in props
      ensures !Contains(r.value, pattern)
    {
      var k :| 0 <= k < |props| && props[k] == r;
      assert WellFormedRow(props[k]);
      ContainsLongPattern(r.value, pattern);
    }
    EmptyIffNoElements(SearchContact(cards, props, addressBookId, pattern, fields));
  }

  /** Asking only for property names outside the allow-list finds nothing in a
      well-formed index: such names never have rows. */
  lemma SearchUnindexedFieldsFindNothing(
    cards: seq<Card>, props: seq<PropertyRow>, addressBookId: int, pattern: string, fields: seq<string>)
    requires |fields| > 0
    requires WellFormed(props)
    requires forall k :: 0 <= k < |fields| ==> !IsIndexed(fields[k])
    ensures SearchContact(cards, props, addressBookId, pattern, fields) == []
  {
    forall r | r in props
      ensures r.name !in fields
    {
      var k :| 0 <= k < |props| && props[k] == r;
      assert WellFormedRow(props[k]);
    }
    EmptyIffNoElements(SearchContact(cards, props, addressBookId, pattern, fields));
  }
}

/** A worked example: one card, three indexed properties, three searches. */
module SearchScenario {
  import opened CardTables
  import opened Text
  import opened PropertyIndex
  import opened CardSearch

  const Jane: VCard := [
    Property("FN", "Jane Doe", []),
    Property("EMAIL", "jane@x.com", [Parameter("TYPE", "PREF")]),
    Property("UID", "abc-123", [])]

  const JaneCard: Card := Card(1, "jane.vcf", 7, "BEGIN:VCARD jane END:VCARD")

  const JaneIndex: seq<PropertyRow> := [
    PropertyRow(7, 1, "FN", "Jane Doe", 0),
    PropertyRow(7, 1, "EMAIL", "jane@x.com", 1),
    PropertyRow(7, 1, "UID", "abc-123", 0)]

  /** All three properties are on the allow-list. */
  lemma JaneAllIndexed()
    ensures IndexedChildren(Jane) == Jane
  {
    assert IsIndexed("FN") by { assert IndexProperties[3] == "FN"; }
    assert IsIndexed("EMAIL") by { assert IndexProperties[10] == "EMAIL"; }
    assert IsIndexed("UID") by { assert IndexProperties[1] == "UID"; }
    var fn, email, uid := [Jane[0]], [Jane[1]], [Jane[2]];
    assert IndexedChildren(fn) == fn by { assert fn[1..] == []; }
    assert IndexedChildren(email) == email by { assert email[1..] == []; }
    assert IndexedChildren(uid) == uid by { assert uid[1..] == []; }
    assert Jane == fn + email + uid;
    IndexedChildrenAppend(fn + email, uid);
    IndexedChildrenAppend(fn, email);
  }

  /** The three rows the card's properties become. */
  lemma JaneRows()
    ensures UpdateProperties([], 7, JaneCard.id, Jane) == JaneIndex
  {
    JaneAllIndexed();
    ToUpperIsPref("PREF");
    assert Preferred(Jane[1].parameters) == 1;
    var rows := Derive(7, JaneCard.id, Jane);
    DeriveRowPerIndexedChild(7, JaneCard.id, Jane);
    assert rows[0] == IndexRow(7, 1, Jane[0]);
    assert rows[1] == IndexRow(7, 1, Jane[1]);
    assert rows[2] == IndexRow(7, 1, Jane[2]);
    assert Purge([], JaneCard.id) == [];
    assert UpdateProperties([], 7, JaneCard.id, Jane) == [] + rows;
  }

  /** "jane" is found under FN or EMAIL in book 7, through the e-mail
      (the match is case-sensitive, so "Jane Doe" does not match). */
  lemma JaneFoundByEmail()
    ensures SearchContact([JaneCard], JaneIndex, 7, "jane", ["FN", "EMAIL"]) == [JaneCard.cardData]
  {
    var email := JaneIndex[1];
    assert OccursAt(email.value, "jane", 0);
    assert CardMatches(JaneCard, JaneIndex, 7, "jane", ["FN", "EMAIL"]) by {
      assert email in JaneIndex;
    }
    var data := MatchingData([JaneCard], JaneIndex, 7, "jane", ["FN", "EMAIL"]);
    assert data == [JaneCard.cardData] by {
      assert [JaneCard][0] == JaneCard && [JaneCard][1..] == [];
      assert MatchingData([], JaneIndex, 7, "jane", ["FN", "EMAIL"]) == [];
    }
    assert Distinct(data) == data by {
      assert data[1..] == [];
    }
  }

  /** The UID value does not contain "jane". */
  lemma JaneNotFoundByUid()
    ensures SearchContact([JaneCard], JaneIndex, 7, "jane", ["UID"]) == []
  {
    MissingCharNotContained("abc-123", "jane", 'j');
    EmptyIffNoElements(SearchContact([JaneCard], JaneIndex, 7, "jane", ["UID"]));
  }

  /** Rows of book 7 are invisible to a search of book 8. */
  lemma JaneNotFoundInOtherBook()
    ensures SearchContact([JaneCard], JaneIndex, 8, "jane", ["FN"]) == []
  {
    EmptyIffNoElements(SearchContact([JaneCard], JaneIndex, 8, "jane", ["FN"]));
  }

  /** Indexing the card in address book 7 yields three rows, only the e-mail
      preferred; "jane" is found under FN or EMAIL in book 7, not under UID,
      and not in book 8. */
  lemma JaneScenario()
    ensures var props := UpdateProperties([], 7, JaneCard.id, Jane);
      && |props| == 3
      && props[0].preferred == 0 && props[1].preferred == 1 && props[2].preferred == 0
      && SearchContact([JaneCard], props, 7, "jane", ["FN", "EMAIL"]) == [JaneCard.cardData]
      && SearchContact([JaneCard], props, 7, "jane", ["UID"]) == []
      && SearchContact([JaneCard], props, 8, "jane", ["FN"]) == []
  {
    JaneRows();
    JaneFoundByEmail();
    JaneNotFoundByUid();
    JaneNotFoundInOtherBook();
  }
}
