/** The log ring of a supervised process: the last complete lines of its output, and the line still being written. */
module LogRing {
  type Bytes = seq<bv8>

  const NEWLINE: bv8 := 10

  // ---- what a stream says

  /** The complete lines of a stream. */
  function Lines(s: Bytes): seq<Bytes> {
    if s == [] then []
    else if s[|s| - 1] == NEWLINE then Lines(s[..|s| - 1]) + [Rest(s[..|s| - 1])]
    else Lines(s[..|s| - 1])
  }

  /** What comes after the last newline. */
  function Rest(s: Bytes): Bytes {
    if s == [] || s[|s| - 1] == NEWLINE then [] else Rest(s[..|s| - 1]) + [s[|s| - 1]]
  }

  /** The lines, each with its newline, and the rest are the stream. */
  function Text(lines: seq<Bytes>): Bytes {
    if lines == [] then [] else Text(lines[..|lines| - 1]) + lines[|lines| - 1] + [NEWLINE]
  }

  lemma {:induction false} LinesAreStream(s: Bytes)
    ensures Text(Lines(s)) + Rest(s) == s
    ensures NEWLINE !in Rest(s) && forall l :: l in Lines(s) ==> NEWLINE !in l
  {
    if s != [] {
      var t, c := s[..|s| - 1], s[|s| - 1];
      LinesAreStream(t);
      assert s == t + [c];
      if c == NEWLINE {
        assert Lines(s)[..|Lines(s)| - 1] == Lines(t);
      } else {
        assert Text(Lines(t)) + (Rest(t) + [c]) == (Text(Lines(t)) + Rest(t)) + [c];
      }
    }
  }

  /** Reading on: only the unfinished line matters. */
  lemma {:induction false} LinesConcat(s: Bytes, t: Bytes)
    ensures Lines(s + t) == Lines(s) + Lines(Rest(s) + t)
    ensures Rest(s + t) == Rest(Rest(s) + t)
  {
    if t == [] {
      assert s + t == s && Rest(s) + t == Rest(s);
      RestUnfinished(s);
    } else {
      var u, c := t[..|t| - 1], t[|t| - 1];
      assert (s + t)[..|s + t| - 1] == s + u && (Rest(s) + t)[..|Rest(s) + t| - 1] == Rest(s) + u;
      LinesConcat(s, u);
    }
  }

  lemma {:induction false} Unfinished(s: Bytes)
    requires NEWLINE !in s
    ensures Lines(s) == [] && Rest(s) == s
  {
    if s != [] {
      Unfinished(s[..|s| - 1]);
      assert s == s[..|s| - 1] + [s[|s| - 1]];
    }
  }

  lemma RestUnfinished(s: Bytes)
    ensures Lines(Rest(s)) == [] && Rest(Rest(s)) == Rest(s)
  {
    LinesAreStream(s);
    Unfinished(Rest(s));
  }

  lemma EndOfLine(s: Bytes)
    ensures Lines(s + [NEWLINE]) == Lines(s) + [Rest(s)] && Rest(s + [NEWLINE]) == []
  {
    assert (s + [NEWLINE])[..|s|] == s;
  }

  lemma HeadLine(head: Bytes, tail: Bytes)
    requires NEWLINE !in head
    ensures Lines((head + [NEWLINE]) + tail) == [head] + Lines(tail) && Rest((head + [NEWLINE]) + tail) == Rest(tail)
  {
    hide Lines, Rest;
    Unfinished(head);
    EndOfLine(head);
    LinesConcat(head + [NEWLINE], tail);
    NoneBefore(head, tail);
  }

  lemma NoneBefore(head: Bytes, tail: Bytes)
    ensures [] + tail == tail && [] + [head] == [head]
  {
  }

  lemma Halves(s: Bytes, i: nat)
    requires i < |s|
    ensures s == (s[..i] + [s[i]]) + s[i + 1..]
  {
  }

  /** One line off the front. */
  lemma FirstLine(s: Bytes, i: nat)
    requires i < |s| && s[i] == NEWLINE && NEWLINE !in s[..i]
    ensures Lines(s) == [s[..i]] + Lines(s[i + 1..]) && Rest(s) == Rest(s[i + 1..])
  {
    hide Lines, Rest;
    Halves(s, i);
    HeadLine(s[..i], s[i + 1..]);
  }

  // ---- the last few

  function Last<T>(s: seq<T>, n: nat): seq<T> {
    if |s| <= n then s else s[|s| - n..]
  }

  lemma LastIs<T>(s: seq<T>, n: nat)
    ensures Last(s, n) == if |s| > n then s[|s| - n..] else s
  {
  }

  lemma LastOfLast<T>(s: seq<T>, x: T, n: nat)
    ensures Last(Last(s, n) + [x], n) == Last(s + [x], n)
  {
  }

  class Ring {
    const max: nat
    var lines: seq<Bytes>
    var part: Bytes
    ghost var stream: Bytes

    constructor (max: nat)
      ensures Valid() && this.max == max && stream == []
    {
      this.max, lines, part, stream := max, [], [], [];
    }

    /** Exactly the last `max` complete lines of everything written, and the unfinished line. */
    ghost predicate Valid()
      reads this
    {
      lines == Last(Lines(stream), max) && part == Rest(stream)
    }

    static method IndexByte(b: Bytes, c: bv8) returns (r: int)
      ensures r == -1 <==> c !in b
      ensures r != -1 ==> 0 <= r < |b| && b[r] == c && c !in b[..r]
    {
      for i := 0 to |b|
        invariant c !in b[..i]
      {
        if b[i] == c {
          return i;
        }
      }
      return -1;
    }

    /** Any chunk: the ring then describes the longer stream. */
    method Write(b: Bytes) returns (n: nat)
      requires Valid()
      modifies this
      ensures Valid() && stream == old(stream) + b && n == |b|
    {
      hide Lines, Rest, Last;
      part := part + b;
      LinesConcat(stream, b);
      ghost var read := Lines(stream);
      stream := stream + b;
      var i := IndexByte(part, NEWLINE);
      while i != -1
        invariant i == -1 <==> NEWLINE !in part
        invariant i != -1 ==> 0 <= i < |part| && part[i] == NEWLINE && NEWLINE !in part[..i]
        invariant stream == old(stream) + b
        invariant Lines(stream) == read + Lines(part) && Rest(stream) == Rest(part)
        invariant lines == Last(read, max)
        decreases |part|
      {
        FirstLine(part, i);
        LastOfLast(read, part[..i], max);
        assert read + Lines(part) == (read + [part[..i]]) + Lines(part[i + 1..]);
        read := read + [part[..i]];
        lines := lines + [part[..i]];
        part := part[i + 1..];
        LastIs(lines, max);
        if |lines| > max {
          lines := lines[|lines| - max..];
        }
        i := IndexByte(part, NEWLINE);
      }
      Unfinished(part);
      assert read + [] == read;
      return |b|;
    }

    /** The last `n` of the complete lines kept. */
    method Tail(n: nat) returns (r: seq<Bytes>)
      requires Valid()
      ensures r == Last(Lines(stream), if n < max then n else max)
    {
      if n >= |lines| {
        return lines;
      }
      return lines[|lines| - n..];
    }
  }
}
