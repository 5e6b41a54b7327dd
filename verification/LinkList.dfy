/**
  The intrusive doubly linked list. A list is a head and a tail pointer; the
  links live inside the structures that are chained. The ghost sequence `nodes`
  says which links a list chains and in which order, and `Valid` says that the
  pointers encode exactly that sequence.
 */
module LinkList {
  import opened Basics

  /**
    A link together with the structure it is embedded in. The link is the first
    member of a buffer block, and the program casts freely between the two
    pointers, so the model has one object for both: `next` and `prev` form the
    link, `wri`, `rdi` and `data` are the rest of the block. The list operations
    only touch the link.
   */
  class Link {
    var next: Link?
    var prev: Link?
    var wri: nat
    var rdi: nat
    const data: array<byte>

    constructor (size: nat)
      ensures fresh(data) && data.Length == size
    {
      next, prev := null, null;
      wri, rdi := 0, 0;
      data := new byte[size](_ => 0);
    }
  }

  lemma InsertedRemoved(s: seq<Link>, l: Link, k: nat)
    requires k < |s|
    ensures var t := s[..k] + [l] + s[k..]; t[k] == l && t[..k] + t[k + 1..] == s
  {
  }

  ghost predicate Distinct(s: seq<Link>) {
    forall i, j :: 0 <= i < j < |s| ==> s[i] != s[j]
  }

  ghost function Only(l: Link?): set<Link> {
    if l == null then {} else {l}
  }

  class List {
    var head: Link?
    var tail: Link?
    ghost var nodes: seq<Link>

    ghost predicate Valid()
      reads this, nodes`next, nodes`prev
    {
      && Distinct(nodes)
      && head == (if nodes == [] then null else nodes[0])
      && tail == (if nodes == [] then null else nodes[|nodes| - 1])
      && (forall i {:trigger nodes[i].next} :: 0 <= i < |nodes| ==>
            nodes[i].next == if i + 1 < |nodes| then nodes[i + 1] else null)
      && (forall i {:trigger nodes[i].prev} :: 0 <= i < |nodes| ==>
            nodes[i].prev == if i > 0 then nodes[i - 1] else null)
    }

    ghost function Members(): set<Link>
      reads this
    {
      set l | l in nodes
    }

    /** The element behind the head, if any. */
    ghost function Second(): Link?
      reads this, head
    {
      if head == null then null else head.next
    }

    constructor ()
      ensures Valid() && nodes == []
    {
      head, tail, nodes := null, null, [];
    }

    /** `ListInit`: forgets whatever was in the list. */
    method Init()
      modifies this
      ensures Valid() && nodes == []
    {
      head, tail, nodes := null, null, [];
    }

    /** `ListPut`: append at the tail. */
    method Put(link: Link)
      requires Valid() && link !in nodes
      modifies this, link`next, link`prev, Only(tail)`next
      ensures Valid() && nodes == old(nodes) + [link]
    {
      link.prev := tail;
      link.next := null;
      if tail == null {
        head := link;
      } else {
        tail.next := link;
      }
      tail := link;
      nodes := nodes + [link];
    }

    /** `ListPutHead`: prepend at the head. */
    method PutHead(link: Link)
      requires Valid() && link !in nodes
      modifies this, link`next, link`prev, Only(head)`prev
      ensures Valid() && nodes == [link] + old(nodes)
    {
      link.prev := null;
      link.next := head;
      if head == null {
        tail := link;
      } else {
        head.prev := link;
      }
      head := link;
      nodes := [link] + nodes;
    }

    /** `ListGet`: unlink the head. The unlinked element keeps its own pointers. */
    method Get() returns (link: Link?)
      requires Valid()
      modifies this, Only(Second())`prev
      ensures Valid()
      ensures old(nodes) == [] ==> link == null && nodes == []
      ensures old(nodes) != [] ==> link == old(nodes)[0] && nodes == old(nodes)[1..]
      ensures link != null ==> link.next == old(link.next) && link.prev == old(link.prev)
    {
      link := head;
      if link != null {
        assert link.next == if |nodes| > 1 then nodes[1] else null;
        head := link.next;
        if link.next == null {
          tail := null;
        } else {
          link.next.prev := null;
        }
        nodes := nodes[1..];
      }
    }

    /** `ListPeekHead`. */
    function PeekHead(): Link?
      reads this
    {
      head
    }

    /** `ListPeekTail`. */
    function PeekTail(): Link?
      reads this
    {
      tail
    }

    /** `ListPeekNext`. */
    static function PeekNext(link: Link): Link?
      reads link
    {
      link.next
    }

    /** `ListPeekPrev`. */
    static function PeekPrev(link: Link): Link?
      reads link
    {
      link.prev
    }

    /** `ListInsert`: put `lnew` in front of the member `link`, which is at position `k`. */
    method Insert(link: Link, lnew: Link, ghost k: nat)
      requires Valid() && lnew !in nodes && k < |nodes| && nodes[k] == link
      modifies this, lnew`next, lnew`prev, Members()`next, Members()`prev
      ensures Valid() && nodes == old(nodes)[..k] + [lnew] + old(nodes)[k..]
    {
      assert link.prev == if k > 0 then nodes[k - 1] else null;
      lnew.next := link;
      lnew.prev := link.prev;
      if link.prev == null {
        head := lnew;
      } else {
        link.prev.next := lnew;
      }
      link.prev := lnew;
      nodes := nodes[..k] + [lnew] + nodes[k..];
    }

    /** `ListRemove`: unlink the member `link`, which is at position `k`. It keeps its own pointers. */
    method Remove(link: Link, ghost k: nat)
      requires Valid() && k < |nodes| && nodes[k] == link
      modifies this, Members()`next, Members()`prev
      ensures Valid() && nodes == old(nodes)[..k] + old(nodes)[k + 1..]
      ensures link.next == old(link.next) && link.prev == old(link.prev)
    {
      assert link.next == if k + 1 < |nodes| then nodes[k + 1] else null;
      assert link.prev == if k > 0 then nodes[k - 1] else null;
      if link.next == null {
        tail := link.prev;
      } else {
        link.next.prev := link.prev;
      }
      if link.prev == null {
        head := link.next;
      } else {
        link.prev.next := link.next;
      }
      nodes := nodes[..k] + nodes[k + 1..];
    }

    /** Removing what was just inserted restores the list and every pointer in it. */
    method InsertThenRemove(link: Link, lnew: Link, ghost k: nat)
      requires Valid() && lnew !in nodes && k < |nodes| && nodes[k] == link
      modifies this, lnew`next, lnew`prev, Members()`next, Members()`prev
      ensures Valid() && nodes == old(nodes) && head == old(head) && tail == old(tail)
      ensures forall i :: 0 <= i < |nodes| ==>
                nodes[i].next == old(nodes[i].next) && nodes[i].prev == old(nodes[i].prev)
    {
      Insert(link, lnew, k);
      InsertedRemoved(old(nodes), lnew, k);
      Remove(lnew, k);
    }
  }

  // -------- Following the pointers --------

  /** The links met by following `next` from `l`, as long as they are new and in `s`. */
  ghost function Forward(l: Link?, s: set<Link>): seq<Link>
    reads s
    decreases s
  {
    if l == null || l !in s then [] else [l] + Forward(List.PeekNext(l), s - {l})
  }

  /** The links met by following `prev` from `l`, as long as they are new and in `s`. */
  ghost function Backward(l: Link?, s: set<Link>): seq<Link>
    reads s
    decreases s
  {
    if l == null || l !in s then [] else [l] + Backward(List.PeekPrev(l), s - {l})
  }

  ghost function Reverse(s: seq<Link>): seq<Link> {
    if s == [] then [] else [s[|s| - 1]] + Reverse(s[..|s| - 1])
  }

  lemma {:induction false} ForwardFrom(list: List, k: nat, s: set<Link>)
    requires list.Valid() && k <= |list.nodes|
    requires forall i :: k <= i < |list.nodes| ==> list.nodes[i] in s
    ensures Forward(if k < |list.nodes| then list.nodes[k] else null, s) == list.nodes[k..]
    decreases |list.nodes| - k
  {
    if k < |list.nodes| {
      ForwardFrom(list, k + 1, s - {list.nodes[k]});
      assert list.nodes[k..] == [list.nodes[k]] + list.nodes[k + 1..];
    }
  }

  lemma {:induction false} BackwardFrom(list: List, k: nat, s: set<Link>)
    requires list.Valid() && k <= |list.nodes|
    requires forall i :: 0 <= i < k ==> list.nodes[i] in s
    ensures Backward(if k > 0 then list.nodes[k - 1] else null, s) == Reverse(list.nodes[..k])
    decreases k
  {
    if k > 0 {
      BackwardFrom(list, k - 1, s - {list.nodes[k - 1]});
      assert list.nodes[..k][..k - 1] == list.nodes[..k - 1];
    }
  }

  /** The pointers of a valid list spell out its sequence forwards, and the reverse backwards. */
  lemma Traversal(list: List)
    requires list.Valid()
    ensures Forward(list.head, list.Members()) == list.nodes
    ensures Backward(list.tail, list.Members()) == Reverse(list.nodes)
    ensures list.head == null <==> list.nodes == []
    ensures list.tail == null <==> list.nodes == []
  {
    ForwardFrom(list, 0, list.Members());
    BackwardFrom(list, |list.nodes|, list.Members());
    assert list.nodes[..|list.nodes|] == list.nodes;
  }
}
