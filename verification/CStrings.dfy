/** C strings and strchr, for the components that take lines apart. */
module CStrings {
  /** strchr: the index of the first c, or the length of s. */
  function IndexOf(s: string, c: char): (i: nat)
    ensures i <= |s| && (i < |s| ==> s[i] == c) && forall j :: 0 <= j < i ==> s[j] != c
  {
    if s == "" || s[0] == c then 0 else 1 + IndexOf(s[1..], c)
  }

  lemma {:induction false} IndexOfFirst(before: string, c: char, after: string)
    requires c !in before
    ensures IndexOf(before + [c] + after, c) == |before|
  {
    if before != "" {
      IndexOfFirst(before[1..], c, after);
      assert (before + [c] + after)[1..] == before[1..] + [c] + after;
    }
  }

  /** What a C function sees of a buffer: the part before the first NUL. */
  function CString(buffer: string): (s: string)
    ensures '\0' !in s
  {
    buffer[..IndexOf(buffer, '\0')]
  }

  lemma {:induction false} CStringAppend(front: string, buffer: string)
    requires '\0' !in front
    ensures CString(front + buffer) == front + CString(buffer)
  {
    if front == "" {
      assert front + buffer == buffer;
    } else {
      CStringAppend(front[1..], buffer);
      assert (front + buffer)[1..] == front[1..] + buffer;
      assert front == [front[0]] + front[1..];
    }
  }

  /** The parts between the separators, empty ones included. */
  function Split(s: string, c: char): (parts: seq<string>)
    ensures parts != []
    decreases |s|
  {
    var i := IndexOf(s, c);
    if i == |s| then [s] else [s[..i]] + Split(s[i + 1..], c)
  }
}
