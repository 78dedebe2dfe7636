/** The nodes of the skip list (hw02/include/skiplist/node.h). */
module SkipNodes {
  import opened Options

  /** A node of the data list. The head and the tail of the list have no key and no value. */
  class DataNode<K, V> {
    const key: Option<K>
    var value: Option<V>
    var next: DataNode?<K, V>

    constructor (key: Option<K>, value: Option<V>)
      ensures this.key == key && this.value == value && next == null
    {
      this.key := key;
      this.value := value;
      this.next := null;
    }

    method SetValue(newValue: Option<V>) returns (oldValue: Option<V>)
      modifies this`value
      ensures value == newValue && oldValue == old(value)
    {
      oldValue := value;
      value := newValue;
    }

    method SetNext(node: DataNode?<K, V>)
      modifies this`next
      ensures next == node
    {
      next := node;
    }
  }

  /** What `pDown` points to: nothing under a bottom head, a data node under a bottom
      index node, an index node of the level below otherwise. */
  datatype Below<K, V> =
    | Nothing
    | DataBelow(data: DataNode<K, V>)
    | IndexBelow(index: IndexNode<K, V>)

  /** A node of one index list. `level` is a proof-only record of the list it belongs to. */
  class IndexNode<K, V> {
    const pDown: Below<K, V>
    const root: DataNode<K, V>
    var next: IndexNode?<K, V>
    ghost const level: int

    constructor (down: Below<K, V>, root: DataNode<K, V>, ghost level: int)
      ensures pDown == down && this.root == root && next == null && this.level == level
    {
      pDown := down;
      this.root := root;
      next := null;
      this.level := level;
    }

    method SetNext(node: IndexNode?<K, V>)
      modifies this`next
      ensures next == node
    {
      next := node;
    }

    /** The key of the tower the node belongs to; heads and tails have none. */
    function Key(): (r: K)
      requires root.key.Some?
    {
      root.key.value
    }

    /** The cast of `pDown` to an index node: null under the bottom level. */
    function Down(): (d: IndexNode?<K, V>)
      ensures d == null <==> !pDown.IndexBelow?
    {
      match pDown
      case IndexBelow(ix) => ix
      case _ => null
    }
  }
}
