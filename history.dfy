/** Any sequence of `save` calls on one store, as a fold of `Upsert.Save`. */
module SaveHistory {
  import opened Wrappers
  import opened Documents
  import opened Upsert
  import SaveProperties

  /** One call: the argument and the UUID the source would draw for it. */
  datatype SaveCall = SaveCall(document: Option<Document>, generatedId: string)

  predicate ValidCalls(calls: seq<SaveCall>) {
    forall i :: 0 <= i < |calls| ==> calls[i].generatedId != ""
  }

  /** The call can write under `key`. */
  predicate Touches(call: SaveCall, key: string) {
    call.document.Some? && TargetKey(call.document.value, call.generatedId) == key
  }

  function SaveAll(storage: Storage, calls: seq<SaveCall>): Storage
    requires ValidCalls(calls)
    decreases |calls|
  {
    if calls == [] then storage
    else SaveAll(Save(storage, calls[0].document, calls[0].generatedId).storage, calls[1..])
  }

  /** There is no removal path: keys only accumulate, at most one per call. */
  lemma {:induction false} KeysOnlyGrow(storage: Storage, calls: seq<SaveCall>)
    requires ValidCalls(calls)
    ensures storage.Keys <= SaveAll(storage, calls).Keys
    ensures |SaveAll(storage, calls).Keys| <= |storage.Keys| + |calls|
    decreases |calls|
  {
    if calls != [] {
      var next := Save(storage, calls[0].document, calls[0].generatedId).storage;
      assert |next.Keys| <= |storage.Keys| + 1 by {
        if calls[0].document.Some? {
          var key := TargetKey(calls[0].document.value, calls[0].generatedId);
          assert next.Keys <= storage.Keys + {key};
          assert |storage.Keys + {key}| <= |storage.Keys| + 1;
          SubsetCardinality(next.Keys, storage.Keys + {key});
        }
      }
      KeysOnlyGrow(next, calls[1..]);
    }
  }

  lemma SubsetCardinality(a: set<string>, b: set<string>)
    requires a <= b
    ensures |a| <= |b|
  {
    assert b == a + (b - a);
  }

  /** An entry that no call of the history targets is left exactly as it was. */
  lemma {:induction false} UntouchedKeyIsUnchanged(storage: Storage, calls: seq<SaveCall>, key: string)
    requires ValidCalls(calls)
    requires key in storage
    requires forall i :: 0 <= i < |calls| ==> !Touches(calls[i], key)
    ensures key in SaveAll(storage, calls) && SaveAll(storage, calls)[key] == storage[key]
    decreases |calls|
  {
    if calls != [] {
      var next := Save(storage, calls[0].document, calls[0].generatedId).storage;
      assert !Touches(calls[0], key);
      assert next[key] == storage[key];
      assert forall i :: 0 <= i < |calls[1..]| ==> !Touches(calls[1..][i], key) by {
        forall i | 0 <= i < |calls[1..]| ensures !Touches(calls[1..][i], key) {
          assert calls[1..][i] == calls[i + 1];
        }
      }
      UntouchedKeyIsUnchanged(next, calls[1..], key);
    }
  }

  /** Every history keeps the storage well keyed, so the constructor's empty
      storage stays well keyed forever. */
  lemma {:induction false} HistoryPreservesWellKeyed(storage: Storage, calls: seq<SaveCall>)
    requires ValidCalls(calls) && WellKeyed(storage)
    ensures WellKeyed(SaveAll(storage, calls))
    decreases |calls|
  {
    if calls != [] {
      SaveProperties.SavePreservesWellKeyed(storage, calls[0].document, calls[0].generatedId);
      HistoryPreservesWellKeyed(Save(storage, calls[0].document, calls[0].generatedId).storage, calls[1..]);
    }
  }
}
