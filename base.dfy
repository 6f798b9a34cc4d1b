/** Option and Result wrappers, and the error conditions the action can end in. */
module Base {

  datatype Option<+T> = None | Some(value: T)

  /** Why an operation failed. Each constructor stands for one of the exceptions the action can raise. */
  datatype Error =
    | FileNotFound(path: string)     // FileNotFoundError from open_yaml, open or unlink
    | FileEmpty(path: string)        // YAMLFileEmptyError: the document loaded as nothing
    | NotADocument(path: string)     // the file's YAML is not a mapping of keys
    | NotText(path: string)          // the file is only known as a parsed document, not as text
    | Invalid(field: string)         // a pydantic ValidationError (or a failed assert in a validator)
    | KeyMissing(key: string)        // KeyError while editing a document
    | IndexOutOfRange(index: nat)    // IndexError while editing a document
    | NotAMapping(index: nat)        // a document component that has no `update`
    | NotAList(key: string)          // a document entry that cannot be indexed by position
    | NoneInJoin                     // TypeError from " ".join over a None
    | RemoteFailure                  // any failing call into the remote service

  datatype Result<+T> = Ok(value: T) | Err(error: Error) {
    predicate IsFailure() { Err? }
    function PropagateFailure<U>(): Result<U> requires Err? { Err(error) }
    function Extract(): T requires Ok? { value }
  }

  /** Adding one of the keys still to do to a map keyed by the keys done so far. */
  lemma KeysGrow<K, V>(m: map<K, V>, k: K, v: V, all: set<K>, left: set<K>)
    requires m.Keys == all - left && k in left && left <= all
    ensures m[k := v].Keys == all - (left - {k})
  {
  }

  /** Two maps with the same keys and the same value at each key are equal. */
  lemma SameMaps<K, V>(a: map<K, V>, b: map<K, V>)
    requires a.Keys == b.Keys && forall k | k in a :: a[k] == b[k]
    ensures a == b
  {
  }

  lemma AppendAssoc<T>(x: seq<T>, y: seq<T>, z: seq<T>)
    ensures x + (y + z) == (x + y) + z
  {
  }
}
