/** Types shared by the whole model: optional values, handler replies, page tokens, Go's narrowing. */
module Common {

  datatype Option<+T> = None | Some(value: T)

  /** Why a handler gave up. The texts of the messages are not modelled. */
  datatype Error =
    | Invalid                   // request rejected before any state was read
    | NotFound(key: string)     // no record under key
    | NoSubsystem(key: string)  // the child exists but its subsystem does not
    | AlreadyExists(nqn: string)
    | StoreError                // the key/value store failed, without effect
    | RpcError                  // the JSON-RPC call returned an error
    | Declined                  // the target answered with a refusal
    | NotListed                 // the target's rows hold no match
    | Unimplemented
    | NilDereference            // a Go run-time panic

  datatype Reply<+T> = Ok(value: T) | Err(error: Error) {
    function Map<U>(f: T -> U): Reply<U> {
      match this
      case Ok(v) => Ok(f(v))
      case Err(e) => Err(e)
    }
  }

  /** The page size used when a request names none; its value is not part of the repository. */
  type PageSize = n: int | 0 < n witness 1

  /** For each page token handed out, where its page starts. */
  type Pages = map<string, nat>

  type Int32 = x: int | -0x8000_0000 <= x < 0x8000_0000

  /** Go's conversion int32(x): the low 32 bits, read as a signed number. */
  function ToInt32(x: int): Int32 {
    (x + 0x8000_0000) % 0x1_0000_0000 - 0x8000_0000
  }

  /** Exact on the 32-bit range, and only there; elsewhere the one 32-bit number congruent to x. */
  lemma NarrowingIsCongruent(x: int, y: Int32)
    ensures y == ToInt32(x) <==> (y - x) % 0x1_0000_0000 == 0
    ensures ToInt32(x) == x <==> -0x8000_0000 <= x < 0x8000_0000
  {
  }

  ghost predicate Injective<K, V>(m: map<K, V>) {
    forall k, l :: k in m && l in m && k != l ==> m[k] != m[l]
  }

  /** m pairs its keys one to one with exactly the given values. */
  ghost predicate Bijective<K, V>(m: map<K, V>, values: set<V>) {
    Injective(m) && m.Values == values
  }

  lemma BijectiveInsert<K, V>(m: map<K, V>, k: K, v: V, values: set<V>)
    requires Bijective(m, values) && k !in m && v !in values
    ensures Bijective(m[k := v], values + {v})
  {
    var m' := m[k := v];
    assert forall l :: l in m ==> m'[l] == m[l] && m[l] in m.Values;
    forall w | w in values + {v} ensures w in m'.Values {
      if w == v { assert m'[k] == v; } else { var l :| l in m && m[l] == w; assert m'[l] == w; }
    }
  }

  lemma BijectiveRemove<K, V>(m: map<K, V>, k: K, values: set<V>)
    requires Bijective(m, values) && k in m
    ensures Bijective(m - {k}, values - {m[k]})
  {
    var m' := m - {k};
    forall w | w in values - {m[k]} ensures w in m'.Values {
      var l :| l in m && m[l] == w;
      assert l in m';
    }
  }
}
