/** The iterator of the skip list (hw02/include/skiplist/iterator.h): a cursor on the data list. */
module SkipIterators {
  import opened Options
  import opened SkipNodes

  class Iterator<K, V> {
    var pCurrent: DataNode?<K, V>

    constructor (p: DataNode?<K, V>)
      ensures pCurrent == p
    {
      pCurrent := p;
    }

    function Key(): (r: K)
      requires pCurrent != null && pCurrent.key.Some?
      reads this
    {
      pCurrent.key.value
    }

    function Value(): (r: V)
      requires pCurrent != null && pCurrent.value.Some?
      reads this, pCurrent
    {
      pCurrent.value.value
    }

    predicate Equals(other: Iterator<K, V>)
      reads this, other
    {
      pCurrent == other.pCurrent
    }

    method Step()
      requires pCurrent != null
      modifies this
      ensures pCurrent == old(pCurrent.next)
    {
      pCurrent := pCurrent.next;
    }
  }
}
