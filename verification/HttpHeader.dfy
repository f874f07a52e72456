/**
 The scan of file.c for the blank line that ends the headers of an HTTP message
 (section 6 of RFC 1945).
 */
module HttpHeader {
  import opened Basics

  /** How many bytes the blank line starting at a position takes; 0 when none starts there. */
  function BlankLine(s: string, p: int): (n: nat)
    ensures n == 0 || 0 <= p <= p + n <= |s|
  {
    if p < 0 then 0
    else if p + 1 < |s| && s[p] == '\n' && s[p + 1] == '\n' then 2
    else if p + 3 < |s| && s[p] == '\r' && s[p + 1] == '\n' && s[p + 2] == '\r' && s[p + 3] == '\n' then 4
    else 0
  }

  /** A blank line is two line feeds, or two pairs of carriage return and line feed. */
  lemma BlankLineBytes(s: string, p: nat)
    ensures BlankLine(s, p) == 2 <==> p + 2 <= |s| && s[p..p + 2] == "\n\n"
    ensures BlankLine(s, p) == 4 <==> p + 4 <= |s| && s[p..p + 4] == "\r\n\r\n"
    ensures BlankLine(s, p) in {0, 2, 4}
  {
    if p + 2 <= |s| && s[p..p + 2] == "\n\n" {
      assert s[p] == s[p..p + 2][0] && s[p + 1] == s[p..p + 2][1];
    }
    if p + 4 <= |s| && s[p..p + 4] == "\r\n\r\n" {
      var t := s[p..p + 4];
      assert s[p] == t[0] && s[p + 1] == t[1] && s[p + 2] == t[2] && s[p + 3] == t[3];
    }
  }

  /** The search one byte at a time: the position behind the first blank line. */
  function FirstEnd(s: string, from: nat): Option<nat>
    decreases |s| - from
  {
    if from >= |s| then None
    else if BlankLine(s, from) > 0 then Some(from + BlankLine(s, from))
    else FirstEnd(s, from + 1)
  }

  /** A blank line ends at `e`, and none starts before it. */
  ghost predicate FirstBlankLine(s: string, p: nat, e: nat) {
    BlankLine(s, p) > 0 && e == p + BlankLine(s, p) && forall q :: 0 <= q < p ==> BlankLine(s, q) == 0
  }

  /** `file_http_header_end`: two bytes at a time, one where a blank line may still begin. */
  method HeaderEnd(s: string) returns (end: Option<nat>)
    ensures end == FirstEnd(s, 0)
  {
    var i := 0;
    while i + 1 < |s|
      invariant 0 <= i
      invariant forall q :: 0 <= q < i ==> BlankLine(s, q) == 0
      decreases |s| - i
    {
      if s[i + 1] == '\n' {
        if s[i] == '\n' {
          Found(s, 0, i);
          return Some(i + 2);
        } else if s[i] == '\r' && i + 3 < |s| && s[i + 2] == '\r' && s[i + 3] == '\n' {
          Found(s, 0, i);
          return Some(i + 4);
        }
        i := i - 1;
      } else if s[i + 1] == '\r' {
        if i + 4 < |s| && s[i + 2] == '\n' && s[i + 3] == '\r' && s[i + 4] == '\n' {
          assert BlankLine(s, i) == 0;
          Found(s, 0, i + 1);
          return Some(i + 5);
        }
        i := i - 1;
      }
      i := i + 2;
    }
    NotFound(s, 0);
    end := None;
  }

  lemma {:induction false} Found(s: string, from: nat, p: nat)
    requires from <= p && BlankLine(s, p) > 0 && forall q :: from <= q < p ==> BlankLine(s, q) == 0
    ensures FirstEnd(s, from) == Some(p + BlankLine(s, p))
    decreases p - from
  {
    if from < p {
      Found(s, from + 1, p);
    }
  }

  lemma {:induction false} NotFound(s: string, from: nat)
    requires forall q :: from <= q < |s| ==> BlankLine(s, q) == 0
    ensures FirstEnd(s, from) == None
    decreases |s| - from
  {
    if from < |s| {
      NotFound(s, from + 1);
    }
  }

  /** What the search finds is the first blank line, and it finds nothing only when there is none. */
  lemma {:induction false} FirstEndIsFirst(s: string, from: nat)
    requires forall q :: 0 <= q < from ==> BlankLine(s, q) == 0
    ensures FirstEnd(s, from).None? <==> forall p :: 0 <= p < |s| ==> BlankLine(s, p) == 0
    ensures FirstEnd(s, from).Some? ==> exists p :: FirstBlankLine(s, p, FirstEnd(s, from).value)
    decreases |s| - from
  {
    if from < |s| {
      if BlankLine(s, from) > 0 {
        assert FirstBlankLine(s, from, from + BlankLine(s, from));
      } else {
        FirstEndIsFirst(s, from + 1);
      }
    }
  }

  /** The headers end at the same place however much more of the message has arrived. */
  lemma {:induction false} MoreData(s: string, more: string, from: nat)
    requires FirstEnd(s, from).Some?
    ensures FirstEnd(s + more, from) == FirstEnd(s, from)
    decreases |s| - from
  {
    assert forall p :: 0 <= p < |s| ==> (s + more)[p] == s[p];
    if BlankLine(s, from) == 0 {
      MoreData(s, more, from + 1);
      NoneWhileFirst(s, more, from);
    }
  }

  /** More data starts no blank line in front of one that was there. */
  lemma NoneWhileFirst(s: string, more: string, from: nat)
    requires from < |s| && BlankLine(s, from) == 0 && FirstEnd(s, from + 1).Some?
    ensures BlankLine(s + more, from) == 0
  {
    assert forall p :: 0 <= p < |s| ==> (s + more)[p] == s[p];
    Inside(s, from + 1);
    if BlankLine(s, from + 1) == 0 {
      Inside(s, from + 2);
    }
  }

  /** What is found lies within the buffer, behind where the search starts. */
  lemma {:induction false} Inside(s: string, from: nat)
    requires FirstEnd(s, from).Some?
    ensures from + 2 <= FirstEnd(s, from).value <= |s|
    decreases |s| - from
  {
    if BlankLine(s, from) == 0 {
      Inside(s, from + 1);
    }
  }
}
