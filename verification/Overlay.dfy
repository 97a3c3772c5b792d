/** Multistore branches: a cache of writes laid over a parent, and `Write` as flushing it. */
module Overlay {
  import opened Words

  type Key = string
  type Value = string
  type Store = map<Key, Value>

  /** The dirty entries of a cache store; None is a deletion. */
  type Writes = map<Key, Option<Value>>

  const CLEAN: Writes := map[]

  /** Reading through a branch, and equally the parent after `Write`. */
  function Apply(s: Store, w: Writes): Store {
    map k | k in s.Keys + w.Keys && (k in w ==> w[k].Some?) :: if k in w then w[k].value else s[k]
  }

  /** Flushing a child into its parent and reading the parent is reading the child over the grandparent. */
  lemma ApplyCompose(s: Store, a: Writes, b: Writes)
    ensures Apply(Apply(s, a), b) == Apply(s, a + b)
  {
  }

  lemma WritesMonoid(a: Writes, b: Writes, c: Writes)
    ensures a + CLEAN == a && CLEAN + a == a
    ensures (a + b) + c == a + (b + c)
  {
  }

  /** Two flushes in a row, and what reading sees after them. */
  lemma {:induction false} ApplyTwice(s: Store, w: Writes, a: Writes, b: Writes)
    ensures w + (a + b) == w + a + b
    ensures Apply(s, w + a + b) == Apply(Apply(Apply(s, w), a), b)
  {
    WritesMonoid(w, a, b);
    ApplyCompose(s, w, a);
    ApplyCompose(s, w + a, b);
  }

  lemma ApplyClean(s: Store)
    ensures Apply(s, CLEAN) == s
  {
  }
}
