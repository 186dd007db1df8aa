/**
 Maintenance of the `cards_properties` search index: which vCard properties are
 indexed, what row each one becomes, and how a card's rows are replaced when
 the card is written (delete every row of the card, then insert the new ones).
 */
module PropertyIndex {
  import opened CardTables
  import opened Text

  /** The property names that are indexed; every other property is skipped. */
  const IndexProperties: seq<string> := [
    "BDAY", "UID", "N", "FN", "TITLE", "ROLE", "NOTE", "NICKNAME",
    "ORG", "CATEGORIES", "EMAIL", "TEL", "IMPP", "ADR", "URL", "GEO", "CLOUD"]

  /** Stored values are cut to this many characters. */
  const MaxValueLength: nat := 254

  predicate IsIndexed(name: string) {
    name in IndexProperties
  }

  /** A `TYPE` parameter whose value is `pref` in any letter case
      (the vCard 3.0 "pref" type value of RFC 2426, sections 3.2.1, 3.3.1 and 3.3.2). */
  predicate IsPrefParameter(prm: Parameter) {
    prm.name == "TYPE" && ToUpper(prm.value) == "PREF"
  }

  /** The `preferred` column of a property's row: the parameters are scanned in
      order and the scan stops at the first `TYPE=PREF`. */
  function Preferred(parameters: seq<Parameter>): (flag: int)
    ensures flag == 0 || flag == 1
    ensures flag == 1 <==> exists k :: 0 <= k < |parameters| && IsPrefParameter(parameters[k])
  {
    if |parameters| == 0 then 0
    else if IsPrefParameter(parameters[0]) then 1
    else
      var rest := Preferred(parameters[1..]);
      assert (exists k :: 0 <= k < |parameters| && IsPrefParameter(parameters[k])) ==> rest == 1 by {
        if exists k :: 0 <= k < |parameters| && IsPrefParameter(parameters[k]) {
          var k :| 0 <= k < |parameters| && IsPrefParameter(parameters[k]);
          assert parameters[1..][k - 1] == parameters[k];
        }
      }
      rest
  }

  /** The stored value: the first `MaxValueLength` characters of the property value. */
  function Truncate(value: string): (stored: string)
    ensures |stored| == if |value| <= MaxValueLength then |value| else MaxValueLength
    ensures stored == value[..|stored|]
    ensures |value| <= MaxValueLength ==> stored == value
  {
    if |value| <= MaxValueLength then value else value[..MaxValueLength]
  }

  /** The index row one allow-listed property becomes. */
  function IndexRow(addressBookId: int, cardId: int, p: Property): PropertyRow {
    PropertyRow(addressBookId, cardId, p.name, Truncate(p.value), Preferred(p.parameters))
  }

  /** The allow-listed children of a vCard, in document order, repeats included. */
  function IndexedChildren(children: VCard): (kept: VCard)
    ensures |kept| <= |children|
    ensures forall p :: p in kept <==> p in children && IsIndexed(p.name)
  {
    if |children| == 0 then []
    else if IsIndexed(children[0].name) then [children[0]] + IndexedChildren(children[1..])
    else IndexedChildren(children[1..])
  }

  /** Nothing is de-duplicated: an allow-listed child occurs among the kept
      children as often as in the vCard, any other child not at all. */
  lemma {:induction false} IndexedChildrenKeepsRepeats(children: VCard)
    ensures forall p ::
      multiset(IndexedChildren(children))[p] == if IsIndexed(p.name) then multiset(children)[p] else 0
  {
    if |children| > 0 {
      IndexedChildrenKeepsRepeats(children[1..]);
      assert children == [children[0]] + children[1..];
    }
  }

  /** Filtering distributes over concatenation: the children of an earlier
      part of the vCard come first, so document order is kept. */
  lemma {:induction false} IndexedChildrenAppend(a: VCard, b: VCard)
    ensures IndexedChildren(a + b) == IndexedChildren(a) + IndexedChildren(b)
  {
    if |a| == 0 {
      assert a + b == b;
    } else {
      assert (a + b)[0] == a[0];
      assert (a + b)[1..] == a[1..] + b;
      IndexedChildrenAppend(a[1..], b);
    }
  }

  /** The rows inserted for a vCard, walking its children in document order
      and skipping those whose name is not allow-listed. */
  function Derive(addressBookId: int, cardId: int, children: VCard): seq<PropertyRow> {
    if |children| == 0 then []
    else if IsIndexed(children[0].name) then
      [IndexRow(addressBookId, cardId, children[0])] + Derive(addressBookId, cardId, children[1..])
    else
      Derive(addressBookId, cardId, children[1..])
  }

  /** The inserted rows are the rows of the allow-listed children: one per such
      child, in document order, without any de-duplication. */
  lemma {:induction false} DeriveRowPerIndexedChild(addressBookId: int, cardId: int, children: VCard)
    ensures |Derive(addressBookId, cardId, children)| == |IndexedChildren(children)|
    ensures forall k :: 0 <= k < |IndexedChildren(children)| ==>
      Derive(addressBookId, cardId, children)[k] == IndexRow(addressBookId, cardId, IndexedChildren(children)[k])
  {
    if |children| > 0 {
      var tail := children[1..];
      DeriveRowPerIndexedChild(addressBookId, cardId, tail);
      if IsIndexed(children[0].name) {
        var rows := [IndexRow(addressBookId, cardId, children[0])] + Derive(addressBookId, cardId, tail);
        var kept := [children[0]] + IndexedChildren(tail);
        assert Derive(addressBookId, cardId, children) == rows;
        assert IndexedChildren(children) == kept;
        forall k | 0 <= k < |kept| ensures rows[k] == IndexRow(addressBookId, cardId, kept[k]) {
          if k > 0 {
            assert rows[k] == Derive(addressBookId, cardId, tail)[k - 1];
            assert kept[k] == IndexedChildren(tail)[k - 1];
          }
        }
      }
    }
  }

  /** The shape every row of the index has. */
  predicate WellFormedRow(row: PropertyRow) {
    && IsIndexed(row.name)
    && |row.value| <= MaxValueLength
    && (row.preferred == 0 || row.preferred == 1)
  }

  predicate WellFormed(table: seq<PropertyRow>) {
    forall k :: 0 <= k < |table| ==> WellFormedRow(table[k])
  }

  /** Every derived row is stamped with the given ids, carries an allow-listed
      name, a value of at most `MaxValueLength` characters and a 0/1 flag. */
  lemma {:induction false} DeriveRowsShape(addressBookId: int, cardId: int, children: VCard)
    ensures forall r :: r in Derive(addressBookId, cardId, children) ==>
      && r.addressBookId == addressBookId
      && r.cardId == cardId
      && WellFormedRow(r)
    ensures forall k :: 0 <= k < |Derive(addressBookId, cardId, children)| ==>
      Derive(addressBookId, cardId, children)[k].cardId == cardId
  {
    var rows := Derive(addressBookId, cardId, children);
    DeriveRowPerIndexedChild(addressBookId, cardId, children);
    forall r | r in rows
      ensures r.addressBookId == addressBookId && r.cardId == cardId && WellFormedRow(r)
    {
      var k :| 0 <= k < |rows| && rows[k] == r;
      var p := IndexedChildren(children)[k];
      assert p in IndexedChildren(children);
    }
    forall k | 0 <= k < |rows| ensures rows[k].cardId == cardId {
      assert rows[k] in rows;
    }
  }

  /** Each allow-listed child has its row; a child whose name is not allow-listed has none. */
  lemma {:induction false} DeriveCoversChildren(addressBookId: int, cardId: int, children: VCard, p: Property)
    requires p in children
    ensures IsIndexed(p.name) ==> IndexRow(addressBookId, cardId, p) in Derive(addressBookId, cardId, children)
    ensures !IsIndexed(p.name) ==> forall r :: r in Derive(addressBookId, cardId, children) ==> r.name != p.name
  {
    var kept := IndexedChildren(children);
    var rows := Derive(addressBookId, cardId, children);
    DeriveRowPerIndexedChild(addressBookId, cardId, children);
    if IsIndexed(p.name) {
      var k :| 0 <= k < |kept| && kept[k] == p;
      assert rows[k] == IndexRow(addressBookId, cardId, p);
    } else {
      DeriveRowsShape(addressBookId, cardId, children);
    }
  }

  /** Number of children named `name`. */
  function CountNamed(children: VCard, name: string): nat {
    if |children| == 0 then 0
    else (if children[0].name == name then 1 else 0) + CountNamed(children[1..], name)
  }

  /** Number of rows named `name`. */
  function CountRowsNamed(rows: seq<PropertyRow>, name: string): nat {
    if |rows| == 0 then 0
    else (if rows[0].name == name then 1 else 0) + CountRowsNamed(rows[1..], name)
  }

  /** No de-duplication: an allow-listed name gets as many rows as there are
      children with that name, and any other name gets none. */
  lemma {:induction false} DeriveCountsPerName(addressBookId: int, cardId: int, children: VCard, name: string)
    ensures CountRowsNamed(Derive(addressBookId, cardId, children), name)
      == if IsIndexed(name) then CountNamed(children, name) else 0
  {
    if |children| > 0 {
      DeriveCountsPerName(addressBookId, cardId, children[1..], name);
      var rest := Derive(addressBookId, cardId, children[1..]);
      if IsIndexed(children[0].name) {
        var rows := [IndexRow(addressBookId, cardId, children[0])] + rest;
        assert rows[1..] == rest;
      }
    }
  }

  /** `purgeProperties`: delete every index row of card `cardId`, whatever its
      address book; all other rows stay, in their order. */
  function Purge(table: seq<PropertyRow>, cardId: int): (rest: seq<PropertyRow>)
    ensures |rest| == |table| - |RowsOf(table, cardId)|
  {
    if |table| == 0 then []
    else if table[0].cardId == cardId then Purge(table[1..], cardId)
    else [table[0]] + Purge(table[1..], cardId)
  }

  /** The rows a purge keeps are exactly the rows of other cards. */
  lemma {:induction false} PurgeKeepsOtherCards(table: seq<PropertyRow>, cardId: int)
    ensures forall r :: r in Purge(table, cardId) <==> r in table && r.cardId != cardId
  {
    if |table| > 0 {
      PurgeKeepsOtherCards(table[1..], cardId);
      assert forall r :: r in table <==> r == table[0] || r in table[1..];
    }
  }

  /** After a purge the card has no rows, and every other card has exactly
      the rows it had, in the same order. */
  lemma {:induction false} PurgeFrame(table: seq<PropertyRow>, cardId: int, other: int)
    ensures RowsOf(Purge(table, cardId), cardId) == []
    ensures other != cardId ==> RowsOf(Purge(table, cardId), other) == RowsOf(table, other)
  {
    if |table| > 0 {
      PurgeFrame(table[1..], cardId, other);
      if table[0].cardId != cardId {
        var tail := Purge(table[1..], cardId);
        assert ([table[0]] + tail)[0] == table[0];
        assert ([table[0]] + tail)[1..] == tail;
      }
    }
  }

  lemma {:induction false} PurgeAppend(a: seq<PropertyRow>, b: seq<PropertyRow>, cardId: int)
    ensures Purge(a + b, cardId) == Purge(a, cardId) + Purge(b, cardId)
  {
    if |a| == 0 {
      assert a + b == b;
    } else {
      assert (a + b)[0] == a[0];
      assert (a + b)[1..] == a[1..] + b;
      PurgeAppend(a[1..], b, cardId);
      var pa, pb := Purge(a[1..], cardId), Purge(b, cardId);
      if a[0].cardId != cardId {
        calc {
          Purge(a + b, cardId);
          [a[0]] + Purge(a[1..] + b, cardId);
          [a[0]] + (pa + pb);
          ([a[0]] + pa) + pb;
          Purge(a, cardId) + pb;
        }
      } else {
        assert Purge(a + b, cardId) == Purge(a[1..] + b, cardId);
        assert Purge(a, cardId) == pa;
      }
    }
  }

  /** Purging a table that holds no row of `cardId` changes nothing. */
  lemma {:induction false} PurgeAbsent(table: seq<PropertyRow>, cardId: int)
    requires forall k :: 0 <= k < |table| ==> table[k].cardId != cardId
    ensures Purge(table, cardId) == table
  {
    if |table| > 0 {
      PurgeAbsent(table[1..], cardId);
      assert [table[0]] + table[1..] == table;
    }
  }

  /** Purging a table whose rows all belong to `cardId` empties it. */
  lemma {:induction false} PurgeOwnRows(table: seq<PropertyRow>, cardId: int)
    requires forall k :: 0 <= k < |table| ==> table[k].cardId == cardId
    ensures Purge(table, cardId) == []
  {
    if |table| > 0 {
      PurgeOwnRows(table[1..], cardId);
    }
  }

  /** `updateProperties`: purge the card's rows, then append the rows derived
      from its current vCard. */
  function UpdateProperties(table: seq<PropertyRow>, addressBookId: int, cardId: int, vcard: VCard)
    : seq<PropertyRow>
  {
    Purge(table, cardId) + Derive(addressBookId, cardId, vcard)
  }

  /** An update removes the card's old rows and adds one row per allow-listed child. */
  lemma UpdateRowCount(table: seq<PropertyRow>, addressBookId: int, cardId: int, vcard: VCard)
    ensures |UpdateProperties(table, addressBookId, cardId, vcard)|
      == |table| - |RowsOf(table, cardId)| + |IndexedChildren(vcard)|
  {
    DeriveRowPerIndexedChild(addressBookId, cardId, vcard);
  }

  /** After an update the card's rows are exactly the new derivation: none of
      its earlier rows survives and nothing is merged. */
  lemma {:induction false} UpdateSetsCardRows(table: seq<PropertyRow>, addressBookId: int, cardId: int, vcard: VCard)
    ensures RowsOf(UpdateProperties(table, addressBookId, cardId, vcard), cardId)
      == Derive(addressBookId, cardId, vcard)
  {
    var rest := Purge(table, cardId);
    var derived := Derive(addressBookId, cardId, vcard);
    PurgeFrame(table, cardId, cardId);
    DeriveRowsShape(addressBookId, cardId, vcard);
    RowsOfAppend(rest, derived, cardId);
    RowsOfOwnRows(derived, cardId);
  }

  /** An update leaves every other card's rows as they were, in their order. */
  lemma {:induction false} UpdateKeepsOtherCards(table: seq<PropertyRow>, addressBookId: int, cardId: int, vcard: VCard, other: int)
    requires other != cardId
    ensures RowsOf(UpdateProperties(table, addressBookId, cardId, vcard), other) == RowsOf(table, other)
  {
    var rest := Purge(table, cardId);
    var derived := Derive(addressBookId, cardId, vcard);
    DeriveRowsShape(addressBookId, cardId, vcard);
    RowsOfAppend(rest, derived, other);
    PurgeFrame(table, cardId, other);
    RowsOfForeign(derived, other);
  }

  /** Replace, not merge: a second update of the same card leaves the table as
      if the first update had never happened. */
  lemma {:induction false} UpdateReplaces(table: seq<PropertyRow>, ab1: int, ab2: int, cardId: int, v1: VCard, v2: VCard)
    ensures UpdateProperties(UpdateProperties(table, ab1, cardId, v1), ab2, cardId, v2)
      == UpdateProperties(table, ab2, cardId, v2)
  {
    var rest := Purge(table, cardId);
    var derived := Derive(ab1, cardId, v1);
    DeriveRowsShape(ab1, cardId, v1);
    PurgeKeepsOtherCards(table, cardId);
    PurgeAppend(rest, derived, cardId);
    PurgeOwnRows(derived, cardId);
    assert forall k :: 0 <= k < |rest| ==> rest[k].cardId != cardId by {
      forall k | 0 <= k < |rest| ensures rest[k].cardId != cardId {
        assert rest[k] in rest;
      }
    }
    PurgeAbsent(rest, cardId);
    assert rest + [] == rest;
  }

  /** An update keeps a well-formed index well-formed. */
  lemma {:induction false} UpdatePreservesWellFormed(table: seq<PropertyRow>, addressBookId: int, cardId: int, vcard: VCard)
    requires WellFormed(table)
    ensures WellFormed(UpdateProperties(table, addressBookId, cardId, vcard))
  {
    var rest := Purge(table, cardId);
    var derived := Derive(addressBookId, cardId, vcard);
    PurgeKeepsOtherCards(table, cardId);
    DeriveRowsShape(addressBookId, cardId, vcard);
    forall k | 0 <= k < |rest + derived|
      ensures WellFormedRow((rest + derived)[k])
    {
      if k < |rest| {
        assert rest[k] in rest;
        var j :| 0 <= j < |table| && table[j] == rest[k];
      } else {
        assert derived[k - |rest|] in derived;
      }
    }
  }
}
