/** The generic list: singly linked, filled at the head, and never holding two items that compare equal. */
module GenericLists {
  import opened Bytes
  import opened Sequences

  /** The first item that compares equal to x, or the length of the list. */
  function Find<T>(compare: (T, T) -> int, s: seq<T>, x: T): (k: nat)
    ensures k <= |s|
    ensures forall i :: 0 <= i < k ==> compare(s[i], x) != 0
    ensures k < |s| ==> compare(s[k], x) == 0
  {
    if s == [] then 0 else if compare(s[0], x) == 0 then 0 else 1 + Find(compare, s[1..], x)
  }

  lemma {:induction false} FindIsFirst<T>(compare: (T, T) -> int, s: seq<T>, x: T, k: nat)
    requires k < |s| && compare(s[k], x) == 0
    requires forall i :: 0 <= i < k ==> compare(s[i], x) != 0
    ensures Find(compare, s, x) == k
  {
  }

  lemma FindNothing<T>(compare: (T, T) -> int, s: seq<T>, x: T)
    requires forall i :: 0 <= i < |s| ==> compare(s[i], x) != 0
    ensures Find(compare, s, x) == |s|
  {
  }

  /** An older item is never equal to a newer one. */
  ghost predicate Distinct<T>(compare: (T, T) -> int, s: seq<T>) {
    forall i, j :: 0 <= i < j < |s| ==> compare(s[j], s[i]) != 0
  }

  lemma RemoveKeepsDistinct<T>(compare: (T, T) -> int, s: seq<T>, x: T)
    requires Distinct(compare, s)
    ensures var k := Find(compare, s, x); k < |s| ==> Distinct(compare, RemoveAt(s, k))
  {
  }

  datatype GlResult = GlSuccess | GlErrorItemAlreadyPresent

  class ListItem<T> {
    const data: T
    var next: ListItem?<T>

    constructor (data: T, next: ListItem?<T>)
      ensures this.data == data && this.next == next
    {
      this.data := data;
      this.next := next;
    }
  }

  class GenericList<T> {
    const compare: (T, T) -> int
    var head: ListItem?<T>
    var itemsCount: uint32
    ghost var items: seq<ListItem<T>>
    ghost var contents: seq<T>
    ghost var repr: set<ListItem<T>>

    ghost predicate Linked()
      reads this`head, this`items, this`contents, this`repr, repr
    {
      && |contents| == |items|
      && (forall i :: 0 <= i < |items| ==> items[i] in repr && items[i].data == contents[i])
      && (forall i, j :: 0 <= i < j < |items| ==> items[i] != items[j])
      && (if items == [] then head == null else head == items[0] && items[|items| - 1].next == null)
      && (forall i :: 0 <= i < |items| - 1 ==> items[i].next == items[i + 1])
    }

    ghost predicate Valid()
      reads this, repr
    {
      Linked() && itemsCount == Wrap32(|contents|) && Distinct(compare, contents)
    }

    /** `gl_create`, with the comparator. */
    constructor (compare: (T, T) -> int)
      ensures Valid() && contents == [] && repr == {} && this.compare == compare
    {
      this.compare := compare;
      head, itemsCount := null, 0;
      items, contents, repr := [], [], {};
    }

    /** `gl_count`. */
    method Count() returns (n: uint32)
      requires Valid()
      ensures n == Wrap32(|contents|)
    {
      return itemsCount;
    }

    /** The item that compares equal to x, by its place, or null behind the last item. */
    method Search(x: T) returns (r: ListItem?<T>)
      requires Linked()
      ensures var k := Find(compare, contents, x); r == if k < |items| then items[k] else null
    {
      r := head;
      ghost var k := 0;
      while r != null
        invariant 0 <= k <= |items| && r == if k < |items| then items[k] else null
        invariant forall i :: 0 <= i < k ==> compare(contents[i], x) != 0
        decreases |items| - k
      {
        if compare(r.data, x) == 0 {
          FindIsFirst(compare, contents, x, k);
          return;
        }
        assert k + 1 < |items| ==> items[k].next == items[k + 1];
        r, k := r.next, k + 1;
      }
      FindNothing(compare, contents, x);
    }

    /** `gl_is_containing`. */
    method IsContaining(x: T) returns (r: bool)
      requires Valid()
      ensures r <==> Find(compare, contents, x) < |contents|
    {
      var item := Search(x);
      return item != null;
    }

    /** `gl_get_reference`. */
    method GetReference(x: T) returns (r: Option<T>)
      requires Valid()
      ensures var k := Find(compare, contents, x); r == if k < |contents| then Some(contents[k]) else None
    {
      var item := Search(x);
      return if item == null then None else Some(item.data);
    }

    /** `gl_insert`: refuses what compares equal to an item, and puts everything else at the head. */
    method Insert(x: T) returns (rc: GlResult)
      requires Valid()
      modifies this
      ensures Valid() && fresh(repr - old(repr))
      ensures rc == if Find(compare, old(contents), x) < |old(contents)| then GlErrorItemAlreadyPresent else GlSuccess
      ensures contents == if rc == GlSuccess then [x] + old(contents) else old(contents)
    {
      var present := IsContaining(x);
      if present {
        return GlErrorItemAlreadyPresent;
      }
      WrapAdd(|contents|, 1, 0x1_0000_0000);
      itemsCount := Wrap32(itemsCount + 1);
      PushFront(x);
      return GlSuccess;
    }

    method PushFront(x: T)
      requires Linked()
      modifies this`head, this`items, this`contents, this`repr
      ensures Linked() && contents == [x] + old(contents) && fresh(repr - old(repr))
    {
      var item := new ListItem(x, head);
      head := item;
      items, contents, repr := [item] + items, [x] + contents, repr + {item};
    }

    method PopFront()
      requires Linked() && contents != []
      modifies this`head, this`items, this`contents
      ensures Linked() && contents == RemoveAt(old(contents), 0)
    {
      assert 1 < |items| ==> items[0].next == items[1];
      head := head.next;
      items, contents := items[1..], contents[1..];
    }

    /** Takes the item behind place k out of the chain. */
    method Unlink(iter: ListItem<T>, ghost k: nat)
      requires Linked() && k + 1 < |items| && iter == items[k]
      modifies this`items, this`contents, iter
      ensures Linked() && contents == RemoveAt(old(contents), k + 1)
    {
      var tmp := iter.next;
      assert k + 2 < |items| ==> items[k + 1].next == items[k + 2];
      iter.next := tmp.next;
      items, contents := RemoveAt(items, k + 1), RemoveAt(contents, k + 1);
    }

    /** The item in front of the one that compares equal to x, or the last item. */
    method Predecessor(x: T) returns (iter: ListItem<T>, ghost k: nat)
      requires Linked() && contents != [] && compare(contents[0], x) != 0
      ensures k < |items| && iter == items[k] && iter.next == if k + 1 < |items| then items[k + 1] else null
      ensures Find(compare, contents, x) == k + 1
    {
      iter, k := head, 0;
      assert 1 < |items| ==> items[0].next == items[1];
      while iter.next != null && compare(iter.next.data, x) != 0
        invariant k < |items| && iter == items[k] && iter.next == if k + 1 < |items| then items[k + 1] else null
        invariant forall i :: 0 <= i <= k ==> compare(contents[i], x) != 0
        decreases |items| - k
      {
        assert k + 2 < |items| ==> items[k + 1].next == items[k + 2];
        iter, k := iter.next, k + 1;
      }
      if iter.next == null {
        FindNothing(compare, contents, x);
      } else {
        FindIsFirst(compare, contents, x, k + 1);
      }
    }

    /** `gl_remove`; the code reads the head item without asking whether there is one. */
    method Remove(x: T) returns (r: Option<T>)
      requires Valid() && contents != []
      modifies this, repr
      ensures Valid() && repr == old(repr)
      ensures var k := Find(compare, old(contents), x);
        if k < |old(contents)| then r == Some(old(contents)[k]) && contents == RemoveAt(old(contents), k)
        else r == None && contents == old(contents)
    {
      hide Wrap32, Find, RemoveAt, Distinct;
      RemoveKeepsDistinct(compare, contents, x);
      if compare(head.data, x) == 0 {
        FindIsFirst(compare, contents, x, 0);
        r := Some(head.data);
        PopFront();
      } else {
        var iter, k := Predecessor(x);
        if iter.next == null {
          return None;
        }
        r := Some(iter.next.data);
        Unlink(iter, k);
      }
      DecrementCount();
    }

    method DecrementCount()
      requires Linked() && itemsCount == Wrap32(|contents| + 1)
      modifies this`itemsCount
      ensures itemsCount == Wrap32(|contents|)
    {
      WrapAdd(|contents| + 1, -1, 0x1_0000_0000);
      itemsCount := Wrap32(itemsCount - 1);
    }
  }
}
