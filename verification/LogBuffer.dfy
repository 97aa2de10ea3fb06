/** The ring buffer behind `GET /admin/logs` (`logbuf.py`). */
module LogBuffers {
  import opened Prelude

  const DEFAULT_CAPACITY: nat := 2000
  const MAX_REQUESTABLE_LINES: nat := 1000

  /** How many lines a request for `n` may get from a buffer of this capacity. */
  function Requestable(n: int, capacity: nat): (k: nat)
    ensures n <= 0 ==> k == 0
    ensures n > 0 ==> k <= n && k <= MAX_REQUESTABLE_LINES && k <= capacity
    ensures n > 0 ==> k == n || k == MAX_REQUESTABLE_LINES || k == capacity
  {
    var asked := if n < MAX_REQUESTABLE_LINES then n else MAX_REQUESTABLE_LINES;
    if asked <= 0 then 0 else if asked < capacity then asked else capacity
  }

  /** `Log` is everything written since the last `Clear`: what an unbounded buffer would hold. */
  class LogBuffer {
    const capacity: nat
    var lines: seq<string>
    ghost var Log: seq<string>

    ghost predicate Valid()
      reads this
    {
      lines == Last(Log, capacity)
    }

    constructor (capacity: nat := DEFAULT_CAPACITY)
      ensures Valid() && Log == [] && this.capacity == capacity
    {
      this.capacity := capacity;
      lines, Log := [], [];
    }

    /** A full deque drops its oldest entry first; one of capacity 0 never holds anything. */
    method Append(line: string)
      requires Valid()
      modifies this
      ensures Valid() && Log == old(Log) + [line]
    {
      LastOfAppend(Log, line, capacity);
      Log := Log + [line];
      if capacity > 0 {
        if |lines| == capacity {
          lines := lines[1..];
        }
        lines := lines + [line];
      }
    }

    method Extend(more: seq<string>)
      requires Valid()
      modifies this
      ensures Valid() && Log == old(Log) + more
    {
      for i := 0 to |more|
        invariant Valid() && Log == old(Log) + more[..i]
      {
        Append(more[i]);
        assert more[..i + 1] == more[..i] + [more[i]];
      }
      assert more[..|more|] == more;
    }

    /** The last lines written since the last clear, oldest first, whatever was evicted before. */
    method Tail(n: int) returns (r: seq<string>)
      requires Valid()
      ensures r == Last(Log, Requestable(n, capacity))
    {
      var count := if n < MAX_REQUESTABLE_LINES then n else MAX_REQUESTABLE_LINES;
      if count <= 0 {
        return [];
      }
      return Last(lines, count);
    }

    method Clear()
      requires Valid()
      modifies this
      ensures Valid() && Log == []
    {
      lines, Log := [], [];
    }
  }
}
