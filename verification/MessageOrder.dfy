/** The order of pending messages: by logical time and then by message hash
     (crates/protocol/onx-sharding/src/pipeline.rs). */
module MessageOrder {
  import opened Messages
  import Sorting

  /** The message hash as a number. */
  type Rank = Message -> nat

  predicate NotAfter(rank: Rank, a: Message, b: Message) {
    a.createdLt < b.createdLt || (a.createdLt == b.createdLt && rank(a) <= rank(b))
  }

  function ByTimeAndHash(rank: Rank): Sorting.Order<Message> {
    (a, b) => NotAfter(rank, a, b)
  }

  function Sort(rank: Rank, s: seq<Message>): seq<Message> {
    Sorting.Sort(ByTimeAndHash(rank), s)
  }

  ghost predicate Sorted(rank: Rank, s: seq<Message>) {
    forall i, j :: 0 <= i < j < |s| ==> NotAfter(rank, s[i], s[j])
  }

  /** No two different messages of s have the same time and hash. */
  ghost predicate HashesDiffer(rank: Rank, s: multiset<Message>) {
    forall a, b :: a in s && b in s && a.createdLt == b.createdLt && rank(a) == rank(b) ==> a == b
  }

  /** Sort yields a sorted permutation. */
  lemma SortSorts(rank: Rank, s: seq<Message>)
    ensures Sorted(rank, Sort(rank, s)) && multiset(Sort(rank, s)) == multiset(s)
  {
    var le := ByTimeAndHash(rank);
    Sorting.SortSorts(le, s);
    forall i, j | 0 <= i < j < |Sort(rank, s)|
      ensures NotAfter(rank, Sort(rank, s)[i], Sort(rank, s)[j])
    {
      assert le(Sort(rank, s)[i], Sort(rank, s)[j]);
    }
  }

  /** Sorting forgets the order of its input. */
  lemma SortForgetsOrder(rank: Rank, s: seq<Message>, t: seq<Message>)
    requires multiset(s) == multiset(t) && HashesDiffer(rank, multiset(s))
    ensures Sort(rank, s) == Sort(rank, t)
  {
    Sorting.SortForgetsOrder(ByTimeAndHash(rank), s, t);
  }
}
