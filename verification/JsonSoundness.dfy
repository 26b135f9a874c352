/**
 What comes out of the JSON reader, whatever text went in: values in canonical
 form, within the nesting limit, with keys that differ, and with a text of
 their own.  So writing what was read and reading it again changes nothing.
 */
module JsonSoundness {
  import opened Prelude
  import opened JsonText
  import opened JsonLaws
  import Decimal

  /** A value that reads back as itself from its own text. */
  ghost predicate Settled(v: Value, depth: nat, pretty: bool) {
    Fits(v, depth) && Canon(v) == v && Write(v, depth, pretty).Some?
  }

  ghost predicate AllSettled(items: seq<Value>, depth: nat, pretty: bool) {
    forall i :: 0 <= i < |items| ==> Settled(items[i], depth, pretty)
  }

  /** Entries with text keys, no key twice, and settled values. */
  ghost predicate EntriesSettled(entries: seq<Entry>, depth: nat, pretty: bool) {
    DistinctKeys(entries) &&
    forall i :: 0 <= i < |entries| ==> entries[i].key.Text? && Settled(entries[i].value, depth, pretty)
  }

  lemma {:induction false} ItemsSettled(items: seq<Value>, depth: nat, pretty: bool, first: bool)
    requires AllSettled(items, depth, pretty)
    ensures AllFit(items, depth) && CanonAll(items) == items && WriteItems(items, depth, pretty, first).Some?
  {
    hide Fits, Canon, Write;
    if items != [] {
      assert Settled(items[0], depth, pretty);
      ItemsSettled(items[1..], depth, pretty, false);
      assert items == [items[0]] + items[1..];
    }
  }

  lemma {:induction false} EntryListSettled(entries: seq<Entry>, depth: nat, pretty: bool, first: bool)
    requires EntriesSettled(entries, depth, pretty)
    ensures EntriesFit(entries, depth) && CanonEntries(entries) == entries
    ensures WriteEntries(entries, depth, pretty, first).Some?
  {
    hide Fits, Canon, Write;
    if entries != [] {
      assert Settled(entries[0].value, depth, pretty);
      EntryListSettled(entries[1..], depth, pretty, false);
      assert entries == [entries[0]] + entries[1..];
      assert CanonEntry(entries[0]) == entries[0];
    }
  }

  lemma VectorSettled(items: seq<Value>, depth: nat, pretty: bool)
    requires depth <= MAX_DEPTH && AllSettled(items, depth + 1, pretty)
    ensures Settled(Vector(items), depth, pretty)
  {
    hide CanonAll, AllFit, WriteItems;
    ItemsSettled(items, depth + 1, pretty, true);
  }

  lemma ObjectSettled(entries: seq<Entry>, depth: nat, pretty: bool)
    requires depth <= MAX_DEPTH && EntriesSettled(entries, depth + 1, pretty)
    ensures Settled(Object(OrderedMap, entries), depth, pretty)
  {
    hide CanonEntries, EntriesFit, WriteEntries;
    EntryListSettled(entries, depth + 1, pretty, true);
  }

  lemma NumberSettled(s: string, depth: nat, pretty: bool)
    requires depth <= MAX_DEPTH && ReadNumber(s).Ok?
    ensures Settled(ReadNumber(s).value.value, depth, pretty)
  {
    hide Decimal.ParseDecimal, Decimal.ToDecimal, NumberLength;
  }

  lemma LeafSettled(v: Value, depth: nat, pretty: bool)
    requires depth <= MAX_DEPTH && (v.Nil? || v.Bool? || v.Text?)
    ensures Settled(v, depth, pretty)
  {
  }

  /** Whatever the reader answers with is settled. */
  lemma {:induction false} ReadSettles(s: string, depth: nat, pretty: bool)
    requires ReadValue(s, depth).Ok?
    ensures Settled(ReadValue(s, depth).value.value, depth, pretty)
    decreases |s|, 3
  {
    hide ReadString, ReadNumber, ReadArray, ReadObject, Settled, Skip;
    var t := Skip(s);
    if t[0] == '[' {
      ArraySettles(t, depth, pretty);
    } else if t[0] == '{' {
      ObjectSettles(t, depth, pretty);
    } else if t[0] in {'n', 't', 'f', '"'} {
      LeafSettled(ReadValue(s, depth).value.value, depth, pretty);
    } else {
      NumberSettled(t, depth, pretty);
    }
  }

  lemma {:induction false} ArraySettles(s: string, depth: nat, pretty: bool)
    requires depth <= MAX_DEPTH && Starts(s, '[') && ReadArray(s, depth + 1).Ok?
    ensures Settled(ReadArray(s, depth + 1).value.value, depth, pretty)
    decreases |s|, 2
  {
    hide ReadItems, Settled, Skip;
    var t := Skip(s[1..]);
    if Starts(t, ']') {
      VectorSettled([], depth, pretty);
    } else {
      ItemsSettle(t, depth + 1, [], pretty);
      VectorSettled(ReadItems(t, depth + 1, []).value.value.items, depth, pretty);
    }
  }

  lemma {:induction false} ItemsSettle(s: string, depth: nat, items: seq<Value>, pretty: bool)
    requires AllSettled(items, depth, pretty) && ReadItems(s, depth, items).Ok?
    ensures
      var v := ReadItems(s, depth, items).value.value;
      v.Vector? && AllSettled(v.items, depth, pretty)
    decreases |s|, 4
  {
    hide ReadValue, Settled, Skip;
    ReadSettles(s, depth, pretty);
    var v := ReadValue(s, depth).value;
    var t := Skip(v.rest);
    if !Starts(t, ']') { ItemsSettle(Skip(t[1..]), depth, items + [v.value], pretty); }
  }

  lemma {:induction false} ObjectSettles(s: string, depth: nat, pretty: bool)
    requires depth <= MAX_DEPTH && Starts(s, '{') && ReadObject(s, depth + 1).Ok?
    ensures Settled(ReadObject(s, depth + 1).value.value, depth, pretty)
    decreases |s|, 2
  {
    hide ReadEntries, Settled, Skip;
    var t := Skip(s[1..]);
    if Starts(t, '}') {
      ObjectSettled([], depth, pretty);
    } else {
      EntriesSettle(t, depth + 1, [], pretty);
      ObjectSettled(ReadEntries(t, depth + 1, []).value.value.entries, depth, pretty);
    }
  }

  lemma {:induction false} EntrySettles(s: string, depth: nat, pretty: bool)
    requires ReadEntry(s, depth).Ok?
    ensures Settled(ReadEntry(s, depth).value.value.1, depth, pretty)
    decreases |s|, 4
  {
    hide ReadValue, Settled, Skip, ReadString;
    ReadSettles(Skip(ReadString(s).value.rest)[1..], depth, pretty);
  }

  lemma {:induction false} EntriesSettle(s: string, depth: nat, entries: seq<Entry>, pretty: bool)
    requires EntriesSettled(entries, depth, pretty) && ReadEntries(s, depth, entries).Ok?
    ensures
      var v := ReadEntries(s, depth, entries).value.value;
      v.Object? && v.kind == OrderedMap && EntriesSettled(v.entries, depth, pretty)
    decreases |s|, 5
  {
    hide ReadEntry, Settled, Skip;
    EntrySettles(s, depth, pretty);
    var e := ReadEntry(s, depth).value;
    var more := entries + [Entry(Text(e.value.0), e.value.1)];
    OneMoreKey(entries, e.value.0, e.value.1);
    var t := Skip(e.rest);
    if !Starts(t, '}') { EntriesSettle(Skip(t[1..]), depth, more, pretty); }
  }

  lemma OneMoreKey(entries: seq<Entry>, key: string, v: Value)
    requires DistinctKeys(entries) && !HasKey(entries, key)
    ensures DistinctKeys(entries + [Entry(Text(key), v)])
  {
  }

  /**
   Every accepted text holds a value within the nesting limit that has a text
   of its own; reading that text gives the same value again.
   */
  lemma ReadIsStable(source: string, pretty: bool)
    requires Read(source).Ok?
    ensures
      var v := Read(source).value;
      Fits(v, 0) && Canon(v) == v && Write(v, 0, pretty).Some? && Read(Write(v, 0, pretty).value) == Ok(v)
  {
    hide ReadValue, Fits, Canon, Write;
    ReadSettles(source, 0, pretty);
    JsonRoundTrip(Read(source).value, pretty);
  }
}
