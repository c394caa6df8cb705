/** What one flat, interleaved entry table says about each of its collections. */
module CollectionContents {
  import opened Roots

  /** The entries of one collection, in table order. */
  function Contents(es: seq<CollEntry>, id: nat): seq<CollEntry> {
    if es == [] then []
    else Contents(es[..|es| - 1], id) + if es[|es| - 1].collId == id then [es[|es| - 1]] else []
  }

  lemma ContentsNext(es: seq<CollEntry>, id: nat, i: nat)
    requires i < |es|
    ensures Contents(es[..i + 1], id) == Contents(es[..i], id) + if es[i].collId == id then [es[i]] else []
  {
    assert es[..i + 1][..i] == es[..i];
  }

  lemma {:induction false} ContentsConcat(a: seq<CollEntry>, b: seq<CollEntry>, id: nat)
    ensures Contents(a + b, id) == Contents(a, id) + Contents(b, id)
  {
    if b == [] {
      assert a + b == a;
    } else {
      var n := |b| - 1;
      ContentsConcat(a, b[..n], id);
      assert (a + b)[..|a| + n] == a + b[..n];
    }
  }

  lemma ContentsSplice(a: seq<CollEntry>, e: CollEntry, b: seq<CollEntry>, id: nat)
    ensures Contents(a + [e] + b, id) == Contents(a, id) + (if e.collId == id then [e] else []) + Contents(b, id)
    ensures Contents(a + b, id) == Contents(a, id) + Contents(b, id)
  {
    ContentsConcat(a + [e], b, id);
    ContentsConcat(a, [e], id);
    ContentsConcat(a, b, id);
    assert Contents([e], id) == if e.collId == id then [e] else [];
  }

  /** The logical position, within its collection, of the entry at table index `idx`. */
  function Position(es: seq<CollEntry>, idx: nat): nat
    requires idx < |es|
  {
    |Contents(es[..idx], es[idx].collId)|
  }

  /** The entry at table index `idx` is the one at its logical position. */
  lemma EntryAtPosition(es: seq<CollEntry>, idx: nat)
    requires idx < |es|
    ensures Position(es, idx) < |Contents(es, es[idx].collId)|
    ensures Contents(es, es[idx].collId)[Position(es, idx)] == es[idx]
  {
    assert es == es[..idx] + [es[idx]] + es[idx + 1..];
    ContentsSplice(es[..idx], es[idx], es[idx + 1..], es[idx].collId);
  }

  /** A sequence without its element at position `p`, if there is one. */
  function DropAt<T>(s: seq<T>, p: nat): seq<T> {
    if p < |s| then s[..p] + s[p + 1..] else s
  }

  /** Removing a table entry drops exactly one entry of one collection. */
  lemma RemoveEntry(es: seq<CollEntry>, idx: nat, id: nat)
    requires idx < |es|
    ensures Contents(DropAt(es, idx), id)
            == if id == es[idx].collId then DropAt(Contents(es, id), Position(es, idx)) else Contents(es, id)
  {
    assert es == es[..idx] + [es[idx]] + es[idx + 1..];
    ContentsSplice(es[..idx], es[idx], es[idx + 1..], id);
    EntryAtPosition(es, idx);
  }

  /** Inserting a table entry in front of one of the same collection splices it in at that logical
      position. */
  lemma InsertEntry(es: seq<CollEntry>, idx: nat, e: CollEntry, id: nat)
    requires idx < |es| && es[idx].collId == e.collId
    ensures Position(es, idx) < |Contents(es, e.collId)|
    ensures Contents(es[..idx] + [e] + es[idx..], id)
            == if id != e.collId then Contents(es, id)
               else Contents(es, id)[..Position(es, idx)] + [e] + Contents(es, id)[Position(es, idx)..]
  {
    ContentsSplice(es[..idx], e, es[idx..], id);
    assert es == es[..idx] + es[idx..];
    EntryAtPosition(es, idx);
  }
}
