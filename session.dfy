/** `cleanup_export_states` (app.py): dropping the export flags and payloads that the
    Streamlit session keeps per uploaded file. The session is a map from string keys to
    values of any type. */
module Session {
  import opened Wrappers
  import opened Text
  import opened Collections

  /** The fourteen key prefixes of export state. */
  const ExportPrefixes: seq<string> := [
    "pdf_ready_", "pdf_data_", "word_ready_", "word_data_",
    "zip_ready_", "zip_data_", "qr_ready_", "qr_data_",
    "excel_ready_", "excel_data_", "basic_pdf_ready_", "basic_pdf_data_",
    "basic_word_ready_", "basic_word_data_"]

  /** `any(key.startswith(prefix) for prefix in prefixes)`. */
  predicate StartsWithAny(key: string, prefixes: seq<string>)
  {
    prefixes != [] && (StartsWith(key, prefixes[0]) || StartsWithAny(key, prefixes[1..]))
  }

  predicate IsExportKey(key: string)
  {
    StartsWithAny(key, ExportPrefixes)
  }

  lemma {:induction false} StartsWithListed(key: string, prefixes: seq<string>, j: nat)
    requires j < |prefixes| && StartsWith(key, prefixes[j])
    ensures StartsWithAny(key, prefixes)
    decreases j
  {
    if j > 0 {
      StartsWithListed(key, prefixes[1..], j - 1);
    }
  }

  /** The keys a cleanup removes: for one file index, the present keys `prefix + index`;
      without an index, every present key that starts with an export prefix. */
  ghost function Doomed<V>(entries: map<string, V>, index: Option<string>): set<string>
  {
    match index
    case Some(i) => set j | 0 <= j < |ExportPrefixes| && ExportPrefixes[j] + i in entries :: ExportPrefixes[j] + i
    case None => set k | k in entries && IsExportKey(k)
  }

  /** No prefix is another prefix's start, so one index names fourteen different keys. */
  lemma PrefixKeysDistinct(i: string, a: nat, b: nat)
    requires a < b < |ExportPrefixes|
    ensures ExportPrefixes[a] + i != ExportPrefixes[b] + i
  {
    var pa, pb := ExportPrefixes[a], ExportPrefixes[b];
    assert (pa + i)[..|pa|] == pa;
  }

  /** A per-file cleanup removes only export keys of that file: each ends with the index. */
  lemma DoomedForIndex<V>(entries: map<string, V>, i: string)
    ensures forall k :: k in Doomed(entries, Some(i)) ==> k in entries && IsExportKey(k) && EndsWith(k, i)
    ensures |Doomed(entries, Some(i))| <= |ExportPrefixes|
  {
    var d := Doomed(entries, Some(i));
    forall k | k in d
      ensures k in entries && IsExportKey(k) && EndsWith(k, i)
    {
      var j :| 0 <= j < |ExportPrefixes| && ExportPrefixes[j] + i in entries && k == ExportPrefixes[j] + i;
      assert StartsWith(k, ExportPrefixes[j]);
      StartsWithListed(k, ExportPrefixes, j);
    }
    var all := seq(|ExportPrefixes|, j requires 0 <= j < |ExportPrefixes| => ExportPrefixes[j] + i);
    forall k | k in d
      ensures k in Elements(all)
    {
      var j :| 0 <= j < |ExportPrefixes| && k == ExportPrefixes[j] + i;
      assert all[j] == k;
    }
    forall a, b | 0 <= a < b < |all|
      ensures all[a] != all[b]
    {
      PrefixKeysDistinct(i, a, b);
    }
    DistinctCard(all);
    assert |d| <= |Elements(all)| by {
      SubsetCard(d, Elements(all));
    }
  }

  /** The `for prefix in export_prefixes` loop: the present keys of one file index, each
      once. */
  method KeysForIndex<V>(entries: map<string, V>, i: string) returns (keys: seq<string>)
    ensures Distinct(keys)
    ensures Elements(keys) == Doomed(entries, Some(i))
  {
    keys := [];
    for j := 0 to |ExportPrefixes|
      invariant Distinct(keys)
      invariant Elements(keys) == PresentBefore(entries, i, j)
      invariant forall k :: k in keys ==> exists p :: 0 <= p < j && k == ExportPrefixes[p] + i
    {
      var key := ExportPrefixes[j] + i;
      PresentStep(entries, i, j);
      if key in entries {
        KeyIsNew(keys, i, j);
        DistinctSnoc(keys, key);
        ElementsSnoc(keys, key);
        keys := keys + [key];
      }
    }
  }

  /** The keys of index `i` the loop has found after `j` prefixes. */
  ghost function PresentBefore<V>(entries: map<string, V>, i: string, j: nat): set<string>
  {
    set p | 0 <= p < j && p < |ExportPrefixes| && ExportPrefixes[p] + i in entries :: ExportPrefixes[p] + i
  }

  lemma PresentStep<V>(entries: map<string, V>, i: string, j: nat)
    requires j < |ExportPrefixes|
    ensures PresentBefore(entries, i, j + 1) == PresentBefore(entries, i, j)
      + (if ExportPrefixes[j] + i in entries then {ExportPrefixes[j] + i} else {})
  {
  }

  /** The key of prefix `j` is none of the keys of earlier prefixes. */
  lemma KeyIsNew(keys: seq<string>, i: string, j: nat)
    requires j < |ExportPrefixes|
    requires forall k :: k in keys ==> exists p :: 0 <= p < j && k == ExportPrefixes[p] + i
    ensures ExportPrefixes[j] + i !in keys
  {
    forall k | k in keys
      ensures k != ExportPrefixes[j] + i
    {
      var p :| 0 <= p < j && k == ExportPrefixes[p] + i;
      PrefixKeysDistinct(i, p, j);
    }
  }

  /** The export keys among `seen`. */
  ghost function ExportKeysIn(seen: set<string>): set<string>
  {
    set k | k in seen && IsExportKey(k)
  }

  lemma ExportKeysStep(seen: set<string>, key: string)
    ensures ExportKeysIn(seen + {key}) == ExportKeysIn(seen) + (if IsExportKey(key) then {key} else {})
  {
  }

  /** The `for key in st.session_state.keys()` loop: every present export key, each once,
      in whatever order the keys are visited. */
  method AllExportKeys<V>(entries: map<string, V>) returns (keys: seq<string>)
    ensures Distinct(keys)
    ensures Elements(keys) == Doomed(entries, None)
  {
    keys := [];
    var todo := entries.Keys;
    ghost var seen: set<string> := {};
    while todo != {}
      invariant seen + todo == entries.Keys && seen !! todo
      invariant Distinct(keys)
      invariant Elements(keys) == ExportKeysIn(seen)
      decreases |todo|
    {
      var key :| key in todo;
      keys := VisitKey(keys, seen, key);
      todo := todo - {key};
      seen := seen + {key};
    }
    DoomedEverywhere(entries);
  }

  /** One turn of the loop: the visited key is collected when it is an export key. */
  method VisitKey(keys: seq<string>, ghost seen: set<string>, key: string) returns (next: seq<string>)
    requires Distinct(keys) && Elements(keys) == ExportKeysIn(seen) && key !in seen
    ensures Distinct(next) && Elements(next) == ExportKeysIn(seen + {key})
  {
    ExportKeysStep(seen, key);
    next := keys;
    if IsExportKey(key) {
      DistinctSnoc(keys, key);
      ElementsSnoc(keys, key);
      next := keys + [key];
    }
  }

  lemma DoomedEverywhere<V>(entries: map<string, V>)
    ensures Doomed(entries, None) == ExportKeysIn(entries.Keys)
  {
  }

  class SessionState<V> {
    var entries: map<string, V>

    constructor(initial: map<string, V>)
      ensures entries == initial
    {
      entries := initial;
    }

    /** `cleanup_export_states(file_index)`: collect the keys to remove, delete them, and
        return how many there were. Every other key keeps its value. */
    method CleanupExportStates(index: Option<string>) returns (removed: nat)
      modifies this
      ensures entries == old(entries) - Doomed(old(entries), index)
      ensures removed == |Doomed(old(entries), index)|
    {
      var keysToRemove: seq<string>;
      if index.Some? {
        keysToRemove := KeysForIndex(entries, index.value);
      } else {
        keysToRemove := AllExportKeys(entries);
      }
      DistinctCard(keysToRemove);
      ghost var start := entries;
      for j := 0 to |keysToRemove|
        invariant entries == start - Elements(keysToRemove[..j])
      {
        assert Elements(keysToRemove[..j + 1]) == Elements(keysToRemove[..j]) + {keysToRemove[j]};
        var key := keysToRemove[j];
        if key in entries {
          entries := entries - {key};
        }
      }
      assert keysToRemove[..|keysToRemove|] == keysToRemove;
      removed := |keysToRemove|;
    }
  }
}
