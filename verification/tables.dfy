/**
 The two tables the CardDAV back-end reads and writes, as immutable rows:
 `cards` (one row per stored vCard) and `cards_properties` (the search index,
 one row per indexed property occurrence). Also the parsed vCard that the
 index is derived from, and a few generic helpers over row sequences.
 */
module CardTables {

  datatype Option<+T> = None | Some(value: T) {

    /** The wrapped value, or `default` when there is none. */
    function GetOr(default: T): T {
      match this
      case Some(v) => v
      case None => default
    }
  }

  /** A row of the `cards` table. `cardData` is the serialized vCard, opaque here. */
  datatype Card = Card(id: int, uri: string, addressBookId: int, cardData: string)

  /** A row of the `cards_properties` table. `preferred` is stored as 0 or 1. */
  datatype PropertyRow = PropertyRow(
    addressBookId: int,
    cardId: int,
    name: string,
    value: string,
    preferred: int)

  /** A property parameter such as `TYPE=PREF`; `value` is the parameter's value as one string. */
  datatype Parameter = Parameter(name: string, value: string)

  /** One child property of a parsed vCard, with its value already rendered as a string. */
  datatype Property = Property(name: string, value: string, parameters: seq<Parameter>)

  /** A parsed vCard: its child properties, in document order. */
  type VCard = seq<Property>

  /** The index rows that belong to card `cardId`, in table order. */
  function RowsOf(table: seq<PropertyRow>, cardId: int): (rows: seq<PropertyRow>)
    ensures |rows| <= |table|
    ensures forall r :: r in rows <==> r in table && r.cardId == cardId
  {
    if |table| == 0 then []
    else if table[0].cardId == cardId then [table[0]] + RowsOf(table[1..], cardId)
    else RowsOf(table[1..], cardId)
  }

  lemma {:induction false} RowsOfAppend(a: seq<PropertyRow>, b: seq<PropertyRow>, cardId: int)
    ensures RowsOf(a + b, cardId) == RowsOf(a, cardId) + RowsOf(b, cardId)
  {
    if |a| == 0 {
      assert a + b == b;
    } else {
      assert (a + b)[1..] == a[1..] + b;
      RowsOfAppend(a[1..], b, cardId);
    }
  }

  /** Filtering a table whose rows all belong to `cardId` keeps it whole. */
  lemma {:induction false} RowsOfOwnRows(table: seq<PropertyRow>, cardId: int)
    requires forall k :: 0 <= k < |table| ==> table[k].cardId == cardId
    ensures RowsOf(table, cardId) == table
  {
    if |table| > 0 {
      RowsOfOwnRows(table[1..], cardId);
      assert [table[0]] + table[1..] == table;
    }
  }

  /** A table holding no row of `cardId` has none to select. */
  lemma {:induction false} RowsOfForeign(table: seq<PropertyRow>, cardId: int)
    requires forall k :: 0 <= k < |table| ==> table[k].cardId != cardId
    ensures RowsOf(table, cardId) == []
  {
    if |table| > 0 {
      RowsOfForeign(table[1..], cardId);
    }
  }

  lemma EmptyIffNoElements<T>(s: seq<T>)
    ensures |s| == 0 <==> forall x :: x !in s
  {
    if |s| > 0 {
      assert s[0] in s;
    }
  }

  /** The position of the first element of `s` satisfying `p`, if any: what a
      store cursor's first `fetch` yields, taking table order as result order. */
  function FirstIndex<T>(s: seq<T>, p: T -> bool): (k: Option<nat>)
    ensures k.None? <==> forall j :: 0 <= j < |s| ==> !p(s[j])
    ensures k.Some? ==> k.value < |s| && p(s[k.value])
    ensures k.Some? ==> forall j :: 0 <= j < k.value ==> !p(s[j])
  {
    if |s| == 0 then None
    else if p(s[0]) then Some(0)
    else match FirstIndex(s[1..], p)
      case None => None
      case Some(j) => Some(j + 1)
  }
}
