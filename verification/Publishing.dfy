/** The two reference formats, published: what a reader finds is the reference of its key, in every run. */
module Publishing {
  import opened Bytes
  import opened PartialCodec
  import opened FullCodec
  import opened FullReader
  import opened Publication

  /** A published Partial reference decodes to the reference that its generators encode, and to no other. */
  lemma PublishedPartialDecodes(ref: PartialReference, key: Text, digest: Digest, s: State, steps: seq<Step>, found: PartialReference)
    requires digest.Valid() && KeyOk(key) && PartialCodec.Encodable(ref)
    requires var text := Encoding(ref, key, digest);
             Init(s) && Possible(text, s, steps) && After(text, s, steps).disk.published.Present?
    ensures var d := After(Encoding(ref, key, digest), s, steps).disk;
            DecodesTo(d.bytes(d.published.inode), key, ref.rows, ref.cols, digest, found) <==> found == ref
  {
    hide Encoding, Init, Possible, After, DecodesTo;
    PublishedIsComplete(Encoding(ref, key, digest), s, steps);
    DecodeAfterEncode(ref, found, key, digest);
  }

  /** A published Full reference holds the table that its generators write, and no other. */
  lemma PublishedFullHolds(text: Text, key: Text, rows: Int32, cols: Int32, build: Build, digest: Digest, table: Table,
                           s: State, steps: seq<Step>, found: Table)
    requires Holds(text, key, rows, cols, build, digest, table)
    requires Init(s) && Possible(text, s, steps) && After(text, s, steps).disk.published.Present?
    ensures var d := After(text, s, steps).disk;
            Holds(d.bytes(d.published.inode), key, rows, cols, build, digest, found) <==> found == table
  {
    hide Holds, Init, Possible, After;
    PublishedIsComplete(text, s, steps);
    if Holds(text, key, rows, cols, build, digest, found) {
      OneTable(text, key, rows, cols, build, digest, table, found);
    }
  }

  /** A reader that has read to the end of what it opened holds the whole file, ready to be decoded. */
  lemma ReadToTheEndDecodes(ref: PartialReference, key: Text, digest: Digest, s: State, steps: seq<Step>, p: Process)
    requires digest.Valid() && KeyOk(key) && PartialCodec.Encodable(ref)
    requires var text := Encoding(ref, key, digest);
             && Init(s) && Possible(text, s, steps) && After(text, s, steps).phase(p).Reading?
             && var t := After(text, s, steps); |t.phase(p).got| == |t.disk.bytes(t.phase(p).file)|
    ensures DecodesTo(After(Encoding(ref, key, digest), s, steps).phase(p).got, key, ref.rows, ref.cols, digest, ref)
  {
    hide Encoding, Init, Possible, After, DecodesTo;
    ReadersGetTheFile(Encoding(ref, key, digest), s, steps, p);
    DecodeAfterEncode(ref, ref, key, digest);
  }
}
