/** The document records of the workspace and the list operations the
    handlers perform on them: `find` by id, `map` that updates the record
    with a given id, and `filter` that drops the records with a given id. */
module Documents {
  import opened Wrappers
  import opened FileKinds
  import opened SeqUpdate

  /** A clock reading (`new Date()`): an uninterpreted value; nothing depends on it. */
  type Time = nat

  /** A file of the workspace; the source calls the last field `type`. */
  datatype Document = Document(id: string, name: string, content: string, lastEdited: Time, fileType: FileType)

  predicate HasId(docs: seq<Document>, id: string)
  {
    exists i :: 0 <= i < |docs| && docs[i].id == id
  }

  predicate UniqueIds(docs: seq<Document>)
  {
    forall i, j :: 0 <= i < j < |docs| ==> docs[i].id != docs[j].id
  }

  lemma HasIdCons(docs: seq<Document>, id: string)
    requires docs != []
    ensures HasId(docs, id) <==> docs[0].id == id || HasId(docs[1..], id)
  {
    assert forall i :: 0 <= i < |docs| - 1 ==> docs[1..][i] == docs[i + 1];
  }

  lemma UniqueIdsTail(docs: seq<Document>)
    requires docs != [] && UniqueIds(docs)
    ensures UniqueIds(docs[1..]) && !HasId(docs[1..], docs[0].id)
  {
    assert forall i :: 0 <= i < |docs| - 1 ==> docs[1..][i] == docs[i + 1];
  }

  /** `docs.find(d => d.id === id)`: the first record with that id, if any. */
  function Find(docs: seq<Document>, id: string): (found: Option<Document>)
    ensures found.None? <==> !HasId(docs, id)
    ensures found.Some? ==> found.value in docs && found.value.id == id
  {
    if docs == [] then None
    else if docs[0].id == id then Some(docs[0])
    else HasIdCons(docs, id); Find(docs[1..], id)
  }

  /** `find` returns the FIRST match: the record found sits at a position
      before which no record has the id. */
  lemma {:induction false} FindFirst(docs: seq<Document>, id: string)
    ensures Find(docs, id).Some? ==>
      exists k :: 0 <= k < |docs| && docs[k] == Find(docs, id).value
        && forall j :: 0 <= j < k ==> docs[j].id != id
  {
    if docs != [] && docs[0].id != id {
      var tail := docs[1..];
      FindFirst(tail, id);
      if Find(tail, id).Some? {
        var k :| 0 <= k < |tail| && tail[k] == Find(tail, id).value
          && forall j :: 0 <= j < k ==> tail[j].id != id;
        assert docs[k + 1] == tail[k];
        forall j | 0 <= j < k + 1
          ensures docs[j].id != id
        {
          if j > 0 {
            assert docs[j] == tail[j - 1];
          }
        }
      }
    }
  }

  /** With unique ids, looking up the id of a record finds that record. */
  lemma {:induction false} FindUnique(docs: seq<Document>, k: nat)
    requires UniqueIds(docs) && k < |docs|
    ensures Find(docs, docs[k].id) == Some(docs[k])
  {
    if k > 0 {
      assert docs[1..][k - 1] == docs[k];
      FindUnique(docs[1..], k - 1);
    }
  }

  /** A record appended with a new id is what that id now finds, and every
      other id finds what it found before. */
  lemma {:induction false} FindAppend(docs: seq<Document>, d: Document, id: string)
    requires !HasId(docs, d.id)
    ensures Find(docs + [d], id) == if HasId(docs, id) then Find(docs, id) else if id == d.id then Some(d) else None
  {
    if docs == [] {
    } else {
      assert (docs + [d])[1..] == docs[1..] + [d];
      if docs[0].id != id {
        HasIdCons(docs, d.id);
        HasIdCons(docs, id);
        FindAppend(docs[1..], d, id);
      }
    }
  }

  /** Appending a record with a new id keeps ids unique. */
  lemma AppendKeepsUnique(docs: seq<Document>, d: Document)
    requires UniqueIds(docs) && !HasId(docs, d.id)
    ensures UniqueIds(docs + [d])
  {
    assert forall i :: 0 <= i < |docs| ==> (docs + [d])[i] == docs[i];
  }

  /** `docs.map(doc => doc.id === id ? f(doc) : doc)`. */
  function UpdateById(docs: seq<Document>, id: string, f: Document -> Document): (updated: seq<Document>)
    ensures |updated| == |docs|
    ensures forall i :: 0 <= i < |docs| && docs[i].id == id ==> updated[i] == f(docs[i])
    ensures forall i :: 0 <= i < |docs| && docs[i].id != id ==> updated[i] == docs[i]
    ensures (forall d :: f(d).id == d.id) ==> forall i :: 0 <= i < |docs| ==> updated[i].id == docs[i].id
  {
    MapIf(docs, (d: Document) => d.id == id, f)
  }

  /** An update that keeps the id of the record it changes keeps the ids of
      the list, and `find` then yields the updated record. */
  lemma {:induction false} FindUpdateById(docs: seq<Document>, id: string, f: Document -> Document, x: string)
    requires forall d :: f(d).id == d.id
    ensures Find(UpdateById(docs, id, f), x) ==
      match Find(docs, x)
      case None => None
      case Some(d) => Some(if x == id then f(d) else d)
  {
    if docs != [] {
      var p := (d: Document) => d.id == id;
      assert MapIf(docs, p, f)[1..] == MapIf(docs[1..], p, f);
      FindUpdateById(docs[1..], id, f, x);
    }
  }

  /** `renameDocument`'s update: only `name` changes, and only on the records
      with that id; length, order, ids, contents and types are kept. */
  function Rename(docs: seq<Document>, id: string, newName: string): (renamed: seq<Document>)
    ensures |renamed| == |docs|
    ensures forall i :: 0 <= i < |docs| ==>
      renamed[i] == if docs[i].id == id then docs[i].(name := newName) else docs[i]
    ensures forall i :: 0 <= i < |docs| ==>
      renamed[i].id == docs[i].id && renamed[i].content == docs[i].content && renamed[i].fileType == docs[i].fileType
    ensures UniqueIds(docs) ==> UniqueIds(renamed)
    ensures forall x :: Find(renamed, x).Some? <==> Find(docs, x).Some?
  {
    UpdateById(docs, id, (d: Document) => d.(name := newName))
  }

  /** `handleContentChange`'s update of the list: the records with that id get
      the new content and edit time; every other record is kept. */
  function Edit(docs: seq<Document>, id: string, text: string, now: Time): (edited: seq<Document>)
    ensures |edited| == |docs|
    ensures forall i :: 0 <= i < |docs| ==>
      edited[i] == if docs[i].id == id then docs[i].(content := text, lastEdited := now) else docs[i]
    ensures UniqueIds(docs) ==> UniqueIds(edited)
    ensures Find(docs, id).Some? ==> Find(edited, id) == Some(Find(docs, id).value.(content := text, lastEdited := now))
  {
    var f := (d: Document) => d.(content := text, lastEdited := now);
    FindUpdateById(docs, id, f, id);
    UpdateById(docs, id, f)
  }

  /** `docs.filter(d => d.id !== id)`. */
  function Remove(docs: seq<Document>, id: string): (kept: seq<Document>)
    ensures |kept| <= |docs|
  {
    if docs == [] then []
    else if docs[0].id == id then Remove(docs[1..], id)
    else [docs[0]] + Remove(docs[1..], id)
  }

  /** `Remove` keeps exactly the records whose id differs from `id`. */
  lemma {:induction false} RemoveMembers(docs: seq<Document>, id: string)
    ensures forall d :: d in Remove(docs, id) <==> d in docs && d.id != id
  {
    if docs != [] {
      RemoveMembers(docs[1..], id);
      assert docs == [docs[0]] + docs[1..];
    }
  }

  /** `filter` works record by record: filtering a concatenation filters
      each part and keeps them in order. */
  lemma {:induction false} RemoveAppend(a: seq<Document>, b: seq<Document>, id: string)
    ensures Remove(a + b, id) == Remove(a, id) + Remove(b, id)
  {
    if a != [] {
      var ab := a + b;
      assert ab != [] && ab[0] == a[0] && ab[1..] == a[1..] + b;
      RemoveAppend(a[1..], b, id);
      if a[0].id == id {
        assert Remove(ab, id) == Remove(a[1..] + b, id);
      } else {
        assert Remove(ab, id) == [a[0]] + Remove(a[1..] + b, id);
        assert [a[0]] + (Remove(a[1..], id) + Remove(b, id)) == ([a[0]] + Remove(a[1..], id)) + Remove(b, id);
      }
    } else {
      assert a + b == b;
    }
  }

  /** A single record is kept exactly when its id differs; with
      `RemoveAppend` this pins `Remove` on every list, repeated ids
      included: the kept records in their original order and number. */
  lemma RemoveSingle(d: Document, id: string)
    ensures Remove([d], id) == if d.id == id then [] else [d]
  {
    assert [d][1..] == [];
  }

  /** Removing the id of one record of a list with unique ids takes out
      exactly that record and keeps the others in their order. */
  lemma {:induction false} RemoveOne(docs: seq<Document>, k: nat)
    requires UniqueIds(docs) && k < |docs|
    ensures Remove(docs, docs[k].id) == docs[..k] + docs[k + 1..]
  {
    var id := docs[k].id;
    UniqueIdsTail(docs);
    var tail := docs[1..];
    if k == 0 {
      RemoveAbsent(tail, id);
      assert docs[..0] + docs[1..] == tail;
    } else {
      assert tail[k - 1] == docs[k];
      assert docs[0].id != id;
      assert Remove(docs, id) == [docs[0]] + Remove(tail, id);
      RemoveOne(tail, k - 1);
      assert tail[..k - 1] + tail[k..] == docs[1..k] + docs[k + 1..];
      assert docs[..k] + docs[k + 1..] == [docs[0]] + (docs[1..k] + docs[k + 1..]);
    }
  }

  /** Removing an id that no record has changes nothing. */
  lemma {:induction false} RemoveAbsent(docs: seq<Document>, id: string)
    requires !HasId(docs, id)
    ensures Remove(docs, id) == docs
  {
    if docs != [] {
      HasIdCons(docs, id);
      RemoveAbsent(docs[1..], id);
      assert docs == [docs[0]] + docs[1..];
    }
  }

  /** With unique ids, `Remove` drops at most one record, keeps ids unique,
      and so leaves a list of two or more records non-empty. */
  lemma RemoveKeepsUnique(docs: seq<Document>, id: string)
    requires UniqueIds(docs)
    ensures UniqueIds(Remove(docs, id))
    ensures |Remove(docs, id)| >= |docs| - 1
  {
    if HasId(docs, id) {
      var k :| 0 <= k < |docs| && docs[k].id == id;
      RemoveOne(docs, k);
      UniqueWithout(docs, k);
    } else {
      RemoveAbsent(docs, id);
    }
  }

  lemma UniqueWithout(docs: seq<Document>, k: nat)
    requires UniqueIds(docs) && k < |docs|
    ensures UniqueIds(docs[..k] + docs[k + 1..])
  {
    var kept := docs[..k] + docs[k + 1..];
    assert forall i :: 0 <= i < |kept| ==> kept[i] == docs[if i < k then i else i + 1];
  }

  /** The active id after `deleted` is removed from a list of two or more
      records: unchanged unless it was the deleted one, and otherwise the id
      of the first record, or of the second when the first was deleted. */
  function ActiveAfterDelete(docs: seq<Document>, active: string, deleted: string): (next: string)
    requires |docs| >= 2
    ensures active != deleted ==> next == active
    ensures active == deleted && docs[0].id != deleted ==> next == docs[0].id
    ensures active == deleted && docs[0].id == deleted ==> next == docs[1].id
    ensures UniqueIds(docs) ==> next != deleted
  {
    if active != deleted then active
    else if docs[0].id == deleted then docs[1].id
    else docs[0].id
  }

  /** With unique ids, the active id still names a record once `deleted` is
      removed and the active id is chosen again. */
  lemma DeleteKeepsActive(docs: seq<Document>, active: string, deleted: string)
    requires |docs| >= 2 && UniqueIds(docs) && HasId(docs, active)
    ensures HasId(Remove(docs, deleted), ActiveAfterDelete(docs, active, deleted))
    ensures ActiveAfterDelete(docs, active, deleted) != deleted
  {
    var next := ActiveAfterDelete(docs, active, deleted);
    var k :| 0 <= k < |docs| && docs[k].id == next;
    var kept := Remove(docs, deleted);
    RemoveMembers(docs, deleted);
    assert docs[k] in kept;
    var i :| 0 <= i < |kept| && kept[i] == docs[k];
  }
}
