/** EXIF tags as Pillow reports them: numeric tag ids, named through a table (`PIL.ExifTags.TAGS`
    or `GPSTAGS`), and the values read for them. */
module Tags {
  import opened Wrappers
  import opened Dicts
  import opened Values

  /** A record key: a tag's name, or its raw id when the table has no name for it. */
  datatype TagKey = Name(name: string) | Id(id: int)

  /** An EXIF value: a plain value, or a nested dictionary keyed by tag id (how `GPSInfo` comes). */
  datatype ExifValue = Scalar(value: Value) | Mapping(entries: Dict<int, Value>)

  /** `TAGS.get(tag_id, tag_id)`. */
  function KeyOf(table: Dict<int, string>, id: int): (k: TagKey)
    ensures k.Id? <==> Get(table, id).None?
    ensures k.Id? ==> k.id == id
    ensures k.Name? ==> Get(table, id) == Some(k.name)
  {
    match Get(table, id)
    case Some(n) => Name(n)
    case None => Id(id)
  }

  /** Two ids get the same key only when the table gives both the same name. */
  lemma KeyOfSame(table: Dict<int, string>, a: int, b: int)
    requires a != b && KeyOf(table, a) == KeyOf(table, b)
    ensures Get(table, a).Some? && Get(table, a) == Get(table, b)
  {
  }

  /** The entries with their ids replaced by keys, in the same order. */
  function Keyed<V>(table: Dict<int, string>, entries: Dict<int, V>): (r: Dict<TagKey, V>)
    ensures |r| == |entries|
    ensures forall i :: 0 <= i < |entries| ==> r[i] == (KeyOf(table, entries[i].0), entries[i].1)
  {
    seq(|entries|, i requires 0 <= i < |entries| => (KeyOf(table, entries[i].0), entries[i].1))
  }

  lemma KeyedPrefix<V>(table: Dict<int, string>, entries: Dict<int, V>, i: nat)
    requires i <= |entries|
    ensures Keyed(table, entries[..i]) == Keyed(table, entries)[..i]
  {
  }

  /** `for tag_id, value in entries: metadata[TAGS.get(tag_id, tag_id)] = value`, from an empty dict. */
  function Named<V>(table: Dict<int, string>, entries: Dict<int, V>): Dict<TagKey, V> {
    PutAll([], Keyed(table, entries))
  }

  /** The loop itself. */
  method NameEntries<V>(table: Dict<int, string>, entries: Dict<int, V>) returns (metadata: Dict<TagKey, V>)
    ensures metadata == Named(table, entries)
  {
    metadata := [];
    var i := 0;
    while i < |entries|
      invariant 0 <= i <= |entries|
      invariant metadata == PutAll([], Keyed(table, entries)[..i])
    {
      var (tagId, value) := entries[i];
      PutAllPrefix([], Keyed(table, entries), i);
      metadata := Put(metadata, KeyOf(table, tagId), value);
      i := i + 1;
    }
    assert Keyed(table, entries)[..|entries|] == Keyed(table, entries);
  }

  /** A key of the result holds the value of the last entry with that key; the keys are distinct. */
  lemma NamedGet<V>(table: Dict<int, string>, entries: Dict<int, V>, k: TagKey)
    ensures Get(Named(table, entries), k) == LastValue(Keyed(table, entries), k)
    ensures DistinctKeys(Named(table, entries))
  {
    PutAllGet([], Keyed(table, entries), k);
    PutAllDistinct([], Keyed(table, entries));
  }

  /** An entry whose key no later entry shares is read back under its name (or raw id). */
  lemma NamedEntry<V>(table: Dict<int, string>, entries: Dict<int, V>, i: nat)
    requires i < |entries|
    requires forall j :: i < j < |entries| ==> KeyOf(table, entries[j].0) != KeyOf(table, entries[i].0)
    ensures Get(Named(table, entries), KeyOf(table, entries[i].0)) == Some(entries[i].1)
  {
    var ks := Keyed(table, entries);
    LastValueIs(ks, i);
    NamedGet(table, entries, ks[i].0);
  }
}
