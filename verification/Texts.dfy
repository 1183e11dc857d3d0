/** Splitting and joining text on "/". A `string` stands for the bytes of a UTF-8 text, one
    character per byte: "/" and "." are ASCII, so splitting bytes and splitting characters agree. */
module Texts {

  datatype Option<+T> = None | Some(value: T)

  const SLASH := '/'

  /** The elements between the "/" of `s`; there is always at least one. */
  function Split(s: string): (parts: seq<string>)
    ensures |parts| >= 1
  {
    if s == [] then [[]]
    else
      var tail := Split(s[1..]);
      if s[0] == SLASH then [[]] + tail
      else [[s[0]] + tail[0]] + tail[1..]
  }

  lemma {:induction false} ElementsHaveNoSlash(s: string)
    ensures forall i :: 0 <= i < |Split(s)| ==> SLASH !in Split(s)[i]
  {
    if s != [] {
      ElementsHaveNoSlash(s[1..]);
    }
  }

  /** The elements with a "/" between each two. */
  function Join(parts: seq<string>): (s: string)
  {
    if parts == [] then []
    else if |parts| == 1 then parts[0]
    else parts[0] + [SLASH] + Join(parts[1..])
  }

  lemma {:induction false} JoinSplit(s: string)
    ensures Join(Split(s)) == s
  {
    if s != [] {
      JoinSplit(s[1..]);
      var tail := Split(s[1..]);
      if s[0] == SLASH {
        assert ([[]] + tail)[1..] == tail;
        assert Split(s) == [[]] + tail;
      } else {
        var parts := [[s[0]] + tail[0]] + tail[1..];
        assert parts[1..] == tail[1..];
        assert [s[0]] + s[1..] == s;
        assert Join(parts) == [s[0]] + Join(tail);
      }
    }
  }

  lemma {:induction false} SplitElement(e: string)
    requires SLASH !in e
    ensures Split(e) == [e]
  {
    if e != [] {
      SplitElement(e[1..]);
      assert [e[0]] + e[1..] == e;
    }
  }

  /** Splitting a text one character longer at the front. */
  lemma FirstElementGrows(c: char, s: string)
    ensures Split([c] + s) == if c == SLASH then [[]] + Split(s) else [[c] + Split(s)[0]] + Split(s)[1..]
  {
    assert ([c] + s)[1..] == s;
  }

  /** Splitting distributes over a "/". */
  lemma {:induction false} SplitAround(a: string, b: string)
    ensures Split(a + [SLASH] + b) == Split(a) + Split(b)
  {
    hide Split;
    if a == [] {
      assert a + [SLASH] + b == [SLASH] + b;
      FirstElementGrows(SLASH, b);
      SplitElement(a);
    } else {
      var tail := a[1..] + [SLASH] + b;
      SplitAround(a[1..], b);
      assert a + [SLASH] + b == [a[0]] + tail;
      assert a == [a[0]] + a[1..];
      FirstElementGrows(a[0], a[1..]);
      FirstElementGrows(a[0], tail);
      var parts := Split(a[1..]);
      assert (parts + Split(b))[1..] == parts[1..] + Split(b);
    }
  }

  /** Splitting undoes joining elements that hold no "/". */
  lemma {:induction false} SplitJoin(parts: seq<string>)
    requires parts != []
    requires forall i :: 0 <= i < |parts| ==> SLASH !in parts[i]
    ensures Split(Join(parts)) == parts
  {
    if |parts| == 1 {
      SplitElement(parts[0]);
    } else {
      SplitJoin(parts[1..]);
      SplitElement(parts[0]);
      SplitAround(parts[0], Join(parts[1..]));
      assert parts == [parts[0]] + parts[1..];
    }
  }
}
