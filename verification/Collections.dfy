/** What several components share: an optional value, a bounded history, and a choice from a set. */
module Collections {

  datatype Option<T> = None | Some(value: T)

  /** Pops from the front until at most `size` are left. */
  function KeepLast<T>(h: seq<T>, size: nat): (r: seq<T>)
    ensures |r| <= size
  {
    if |h| > size then h[|h| - size..] else h
  }

  /** It keeps as many as fit, from the end. */
  lemma KeepLastKeepsEnd<T>(h: seq<T>, size: nat)
    ensures var r := KeepLast(h, size);
            |r| == (if |h| < size then |h| else size) && h[..|h| - |r|] + r == h
  {
  }

  lemma KeepLastTwice<T>(h: seq<T>, x: T, size: nat)
    ensures KeepLast(KeepLast(h, size) + [x], size) == KeepLast(h + [x], size)
  {
  }

  /** The loop that pops a deque down to its bound. */
  method PopFront<T>(h: seq<T>, size: nat) returns (r: seq<T>)
    ensures r == KeepLast(h, size)
  {
    r := h;
    while |r| > size
      invariant |r| <= |h| && r == h[|h| - |r|..] && (|h| > size ==> |r| >= size) && (|h| <= size ==> r == h)
    {
      r := r[1..];
    }
  }

  lemma Pick<T>(s: set<T>) returns (x: T)
    requires s != {}
    ensures x in s
  {
    x :| x in s;
  }
}
