/**
 How search.c turns an address into search phrases: separators become single spaces, and then every run
 of consecutive words is a phrase. C strings are sequences without zeros.
 */
module AddressPhrases {

  predicate Separator(c: char) {
    c == ',' || c == '/' || c == ' '
  }

  /** How many characters at the start are no separators. */
  function WordLength(s: string): (n: nat)
    ensures n <= |s| && (forall i :: 0 <= i < n ==> !Separator(s[i])) && (n < |s| ==> Separator(s[n]))
  {
    if s == "" || Separator(s[0]) then 0 else 1 + WordLength(s[1..])
  }

  /** The words of an address: its longest pieces without separators. */
  function Words(s: string): (ws: seq<string>)
    ensures forall w :: w in ws ==> w != "" && forall c :: c in w ==> !Separator(c)
    decreases |s|
  {
    if s == "" then []
    else if Separator(s[0]) then Words(s[1..])
    else [s[..WordLength(s)]] + Words(s[WordLength(s)..])
  }

  /** Words with single spaces between them. */
  function Join(ws: seq<string>): string {
    if ws == [] then "" else if |ws| == 1 then ws[0] else ws[0] + " " + Join(ws[1..])
  }

  // ----- search_fix_spaces

  /** What `search_fix_spaces` leaves, unless it steps in front of its buffer. */
  datatype Fixed = Underflow | Fixed(text: string)

  /** What follows the part of a word already written. */
  function Rest(s: string): string
    decreases |s|
  {
    if s == "" then ""
    else if Separator(s[0]) then (if Words(s) == [] then "" else " " + Join(Words(s)))
    else [s[0]] + Rest(s[1..])
  }

  lemma FirstWord(s: string, n: nat)
    requires s != "" && !Separator(s[0]) && n == WordLength(s[1..])
    ensures Words(s) == [s[..n + 1]] + Words(s[1..][n..]) && s[..n + 1] == [s[0]] + s[1..][..n]
  {
    assert s[n + 1..] == s[1..][n..];
  }

  lemma JoinCons(w: string, ws: seq<string>)
    ensures Join([w] + ws) == w + if ws == [] then "" else " " + Join(ws)
  {
    assert ([w] + ws)[1..] == ws;
  }

  /** The normal form character by character. */
  lemma {:induction false} JoinStep(s: string)
    requires s != ""
    ensures Join(Words(s)) == if Separator(s[0]) then Join(Words(s[1..])) else [s[0]] + Rest(s[1..])
    decreases |s|
  {
    if !Separator(s[0]) {
      var t := s[1..];
      var n := WordLength(t);
      RestIs(t);
      var w, ws := s[..n + 1], Words(t[n..]);
      FirstWord(s, n);
      JoinCons(w, ws);
      var x := if ws == [] then "" else " " + Join(ws);
      assert w + x == [s[0]] + (t[..n] + x);
    }
  }

  lemma {:induction false} RestIs(s: string)
    ensures var n := WordLength(s);
      Rest(s) == s[..n] + if Words(s[n..]) == [] then "" else " " + Join(Words(s[n..]))
    decreases |s|
  {
    var n := WordLength(s);
    if s == "" {
      assert s[n..] == "" && s[..n] == "";
    } else if Separator(s[0]) {
      assert s[0..] == s && s[..0] == "";
    } else {
      var t := s[1..];
      RestIs(t);
      assert n == 1 + WordLength(t);
      RestStep(s, n);
    }
  }

  lemma RestStep(s: string, n: nat)
    requires 0 < n <= |s|
    ensures s[..n] == [s[0]] + s[1..][..n - 1] && s[n..] == s[1..][n - 1..]
  {
  }

  lemma {:induction false} SkipSeparators(s: string, n: nat)
    requires n <= |s| && forall i :: 0 <= i < n ==> Separator(s[i])
    ensures Words(s) == Words(s[n..])
  {
    if n == 0 {
      assert s[0..] == s;
    } else {
      SkipSeparators(s[1..], n - 1);
      assert s[1..][n - 1..] == s[n..];
    }
  }

  /** No words means nothing but separators. */
  lemma {:induction false} NoWords(s: string)
    ensures Words(s) == [] <==> forall i :: 0 <= i < |s| ==> Separator(s[i])
  {
    if s != "" && Separator(s[0]) {
      NoWords(s[1..]);
    }
  }

  predicate CString(s: string) {
    forall i :: 0 <= i < |s| ==> s[i] != '\0'
  }

  /** The address after its first loop: every separator is a space. */
  function Spaced(s: string): (t: string)
    ensures |t| == |s| && forall i :: 0 <= i < |s| ==> t[i] == if Separator(s[i]) then ' ' else s[i]
  {
    seq(|s|, i requires 0 <= i < |s| => if Separator(s[i]) then ' ' else s[i])
  }

  lemma {:induction false} SpacedLength(s: string)
    ensures WordLength(Spaced(s)) == WordLength(s)
  {
    if s != "" && !Separator(s[0]) {
      SpacedLength(s[1..]);
      assert Spaced(s)[1..] == Spaced(s[1..]);
    }
  }

  lemma {:induction false} SpacedWords(s: string)
    ensures Words(Spaced(s)) == Words(s)
    decreases |s|
  {
    if s != "" {
      if Separator(s[0]) {
        SpacedWords(s[1..]);
        assert Spaced(s)[1..] == Spaced(s[1..]);
      } else {
        var n := WordLength(s);
        SpacedLength(s);
        SpacedWords(s[n..]);
        assert Spaced(s)[n..] == Spaced(s[n..]);
        assert Spaced(s)[..n] == s[..n];
      }
    }
  }

  /** The buffer while the second loop runs: `d` characters are written, the text from `s` on is still to read. */
  ghost predicate Cleaning(b: seq<char>, t: string, s: nat, d: nat) {
    && d <= s <= |t| && |b| == |t| + 1 && b[s..] == t[s..] + ['\0']
    && (if d == 0 then
          Join(Words(t)) == Join(Words(t[s..])) && (s > 0 ==> b[s] != ' ' && b[s] != '\0')
        else if b[d - 1] == ' ' then
          Join(Words(t)) == b[..d] + Join(Words(t[s..])) && b[s] != ' ' && b[s] != '\0'
        else
          Join(Words(t)) == b[..d] + Rest(t[s..]))
  }

  /** A character of a word is copied. */
  lemma CopyCharacter(b: seq<char>, t: string, s: nat, d: nat)
    requires Cleaning(b, t, s, d) && s < |t| && !Separator(b[s])
    ensures Cleaning(b[d := b[s]], t, s + 1, d + 1)
  {
    assert t[s..][0] == b[s..][0] == b[s];
    JoinStep(t[s..]);
    var c := b[d := b[s]];
    assert t[s..][1..] == t[s + 1..];
    assert c[s + 1..] == b[s..][1..] == t[s + 1..] + ['\0'];
    assert c[..d + 1] == b[..d] + [b[s]];
  }

  /** What the text still to read says after spaces in front of a further word. */
  lemma ReadSpaces(t: string, s: nat, s': nat)
    requires s < s' < |t| && (forall i :: s <= i < s' ==> t[i] == ' ') && !Separator(t[s'])
    ensures Words(t[s..]) == Words(t[s'..]) != [] && Rest(t[s..]) == " " + Join(Words(t[s'..]))
  {
    var u := t[s..];
    SkipSeparators(u, s' - s);
    assert u[s' - s..] == t[s'..];
    NoWords(t[s'..]);
    assert t[s'..][0] == t[s'] && u[0] == ' ';
  }

  /** What is still to read after spaces in front of a further word. */
  lemma AfterSpaces(b: seq<char>, t: string, s: nat, s': nat)
    requires s < s' < |t| && |b| == |t| + 1 && b[s..] == t[s..] + ['\0'] && CString(t)
      && (forall i :: s <= i < s' ==> b[i] == ' ') && !Separator(b[s'])
    ensures b[s'..] == t[s'..] + ['\0'] && b[s'] != ' ' && b[s'] != '\0' && b[s] == ' '
    ensures Words(t[s..]) == Words(t[s'..]) != [] && Rest(t[s..]) == " " + Join(Words(t[s'..]))
  {
    assert forall i :: s <= i < |t| ==> b[i] == b[s..][i - s] == t[i];
    ReadSpaces(t, s, s');
    assert b[s'..] == b[s..][s' - s..] == t[s'..] + ['\0'];
  }

  /** One space goes behind what is written. */
  lemma WriteSpace(b: seq<char>, t: string, s: nat, d: nat, s': nat)
    requires Cleaning(b, t, s, d) && 0 < d && s < s' < |t| && b[s] == ' ' && Rest(t[s..]) == " " + Join(Words(t[s'..]))
    requires b[s'..] == t[s'..] + ['\0'] && b[s'] != ' ' && b[s'] != '\0'
    ensures Cleaning(b[d := ' '], t, s', d + 1)
  {
    var c := b[d := ' '];
    assert c[..d + 1] == b[..d] + [' '];
    assert c[s'..] == b[s'..];
    var x := Join(Words(t[s'..]));
    assert b[..d] + (" " + x) == (b[..d] + [' ']) + x;
  }

  /** Spaces in front of a further word. */
  lemma CopySpace(b: seq<char>, t: string, s: nat, d: nat, s': nat)
    requires Cleaning(b, t, s, d) && s < s' < |t| && (forall i :: s <= i < s' ==> b[i] == ' ') && !Separator(b[s'])
      && CString(t)
    ensures d == 0 ==> Cleaning(b, t, s', d)
    ensures d > 0 ==> Cleaning(b[d := ' '], t, s', d + 1)
  {
    AfterSpaces(b, t, s, s');
    if d > 0 {
      WriteSpace(b, t, s, d, s');
    }
  }

  /** Nothing is left to say when only spaces are to read. */
  lemma ReadNothing(t: string, s: nat)
    requires s < |t| && forall i :: s <= i < |t| ==> t[i] == ' '
    ensures Words(t[s..]) == [] && Rest(t[s..]) == "" && t[|t|..] == "" && Rest("") == ""
  {
    NoWords(t[s..]);
    assert t[s..][0] == ' ';
  }

  /** Spaces at the end. */
  lemma DropSpaces(b: seq<char>, t: string, s: nat, d: nat)
    requires Cleaning(b, t, s, d) && s < |t| && forall i :: s <= i < |t| ==> b[i] == ' '
    ensures d == 0 ==> Words(t) == [] && t != ""
    ensures d > 0 ==> Cleaning(b[d := ' '], t, |t|, d)
  {
    assert forall i :: s <= i < |t| ==> b[i] == b[s..][i - s] == t[i];
    ReadNothing(t, s);
    if d > 0 {
      var c := b[d := ' '];
      assert c[..d] == b[..d];
      assert c[|t|] == b[s..][|t| - s] == '\0';
      assert c[|t|..] == ['\0'];
    } else if Words(t) != [] {
      JoinNotEmpty(Words(t));
    }
  }

  lemma JoinNotEmpty(ws: seq<string>)
    requires ws != [] && forall w :: w in ws ==> w != ""
    ensures Join(ws) != ""
  {
    assert ws[0] in ws;
  }

  /** The first loop of `search_fix_spaces`. */
  method Space(ret: array<char>, len: nat)
    requires len < ret.Length
    modifies ret
    ensures ret[..len] == Spaced(old(ret[..len])) && ret[len..] == old(ret[len..])
  {
    for i := 0 to len
      invariant ret[..i] == Spaced(old(ret[..len]))[..i] && ret[i..] == old(ret[i..])
    {
      assert ret[i] == old(ret[i..])[0] == old(ret[..len])[i];
      if ret[i] == ',' || ret[i] == '/' {
        ret[i] := ' ';
      }
      assert ret[..i + 1] == ret[..i] + [ret[i]];
    }
    assert Spaced(old(ret[..len]))[..len] == Spaced(old(ret[..len]));
  }

  /** The inner loop of `search_fix_spaces`. */
  method SkipSpaces(ret: array<char>, from: nat, len: nat) returns (s: nat)
    requires from <= len < ret.Length && ret[len] == '\0'
    ensures from <= s <= len && ret[s] != ' ' && forall i :: from <= i < s ==> ret[i] == ' '
  {
    s := from;
    while ret[s] == ' '
      invariant from <= s <= len && forall i :: from <= i < s ==> ret[i] == ' '
      decreases len - s
    {
      s := s + 1;
    }
  }

  /**
   A pass of the second loop at a space: it is copied behind a word, the spaces after it are skipped, and at the
   end it is dropped.
   */
  method PassSpaces(ret: array<char>, s: nat, d: nat, ghost t: string, ghost b: seq<char>) returns (s': nat, d': int)
    requires b == ret[..] && Cleaning(b, t, s, d) && s < |t| && b[s] == ' ' && CString(t)
      && (forall i :: 0 <= i < |t| ==> t[i] == ' ' || !Separator(t[i]))
    modifies ret
    ensures if d' < 0 then t != "" && Words(t) == [] else s < s' && Cleaning(ret[..], t, s', d')
  {
    assert forall i :: s <= i < |t| ==> b[i] == b[s..][i - s] == t[i];
    assert b[|t|] == b[s..][|t| - s] == '\0';
    s', d' := s + 1, d;
    if d != 0 {
      ret[d] := ' ';
      d' := d' + 1;
    }
    s' := SkipSpaces(ret, s', ret.Length - 1);
    assert ret[..] == if d != 0 then b[d := ' '] else b;
    assert forall i :: s < i < s' ==> b[i] == ret[i];
    if ret[s'] == '\0' {
      assert s' == |t|;
      DropSpaces(b, t, s, d);
      d' := d' - 1;
    } else {
      CopySpace(b, t, s, d, s');
    }
  }

  /** The copy of the address, with its first loop done, ready for the second. */
  method SpacedCopy(str: string) returns (ret: array<char>)
    requires CString(str)
    ensures fresh(ret) && Cleaning(ret[..], Spaced(str), 0, 0) && Words(Spaced(str)) == Words(str)
  {
    ret := new char[|str| + 1](i requires 0 <= i <= |str| => if i < |str| then str[i] else '\0');
    assert ret[..|str|] == str && ret[|str|..] == ['\0'];
    Space(ret, |str|);
    SpacedWords(str);
    ghost var t := Spaced(str);
    assert ret[..] == t + ['\0'] && ret[..][0..] == ret[..];
    assert t[0..] == t;
  }

  /** `search_fix_spaces`: an address of separators only sends the write pointer in front of the buffer. */
  method FixSpaces(str: string) returns (fixed: Fixed)
    requires CString(str)
    ensures fixed == if str != "" && Words(str) == [] then Underflow else Fixed(Join(Words(str)))
  {
    var ret := SpacedCopy(str);
    ghost var t := Spaced(str);
    var s, d := 0, 0;
    while ret[s] != '\0'
      invariant Cleaning(ret[..], t, s, d)
      decreases |t| - s
    {
      ghost var b := ret[..];
      assert b[s..][0] == ret[s];
      if ret[s] != ' ' {
        CopyCharacter(b, t, s, d);
        ret[d] := ret[s];
        assert ret[..] == b[d := b[s]];
        s, d := s + 1, d + 1;
      } else {
        var d';
        s, d' := PassSpaces(ret, s, d, t, b);
        if d' < 0 {
          return Underflow;
        }
        d := d';
      }
    }
    assert (t[s..] + ['\0'])[0] == ret[..][s..][0] == '\0';
    fixed := Fixed(ret[..d]);
  }

  // ----- search_split_phrases

  ghost predicate AreWords(ws: seq<string>) {
    forall w :: w in ws ==> w != "" && forall c :: c in w ==> !Separator(c)
  }

  lemma {:induction false} LengthOfWord(w: string, rest: string)
    requires (forall c :: c in w ==> !Separator(c)) && (rest == "" || Separator(rest[0]))
    ensures WordLength(w + rest) == |w|
  {
    if w == "" {
      assert w + rest == rest;
    } else {
      assert (w + rest)[1..] == w[1..] + rest;
      LengthOfWord(w[1..], rest);
    }
  }

  /** Words joined with spaces are found again. */
  lemma {:induction false} WordsOfJoin(ws: seq<string>)
    requires AreWords(ws)
    ensures Words(Join(ws)) == ws
  {
    if ws != [] {
      var rest := if |ws| == 1 then "" else " " + Join(ws[1..]);
      assert ws[0] in ws;
      assert Join(ws) == ws[0] + rest;
      LengthOfWord(ws[0], rest);
      assert forall w :: w in ws[1..] ==> w in ws;
      WordsOfJoin(ws[1..]);
      assert Join(ws)[..|ws[0]|] == ws[0] && Join(ws)[|ws[0]|..] == rest;
      if |ws| > 1 {
        assert rest[1..] == Join(ws[1..]);
      }
    }
  }

  /** Runs of words that start with the first one, the longest first, of at most `n` words. */
  function RunsFromFirst(ws: seq<string>, n: nat): (r: seq<string>)
    requires n <= |ws|
    ensures |r| == n
  {
    if n == 0 then [] else [Join(ws[..n])] + RunsFromFirst(ws, n - 1)
  }

  /** All runs of words: by their start, and for one start the longest first. */
  function Phrases(ws: seq<string>): seq<string> {
    if ws == [] then [] else RunsFromFirst(ws, |ws|) + Phrases(ws[1..])
  }

  lemma {:induction false} RunAt(ws: seq<string>, n: nat, k: nat)
    requires k < n <= |ws|
    ensures RunsFromFirst(ws, n)[k] == Join(ws[..n - k])
  {
    if k > 0 {
      RunAt(ws, n - 1, k - 1);
    }
  }

  /** There are n(n+1)/2 phrases. */
  lemma {:induction false} PhraseCount(ws: seq<string>)
    ensures 2 * |Phrases(ws)| == |ws| * (|ws| + 1)
  {
    if ws != [] {
      PhraseCount(ws[1..]);
      var n := |ws|;
      assert |ws[1..]| * (|ws[1..]| + 1) == (n - 1) * n == n * n - n;
      assert n * (n + 1) == n * n + n;
    }
  }

  /** Where the runs that start with word `i` begin in the list. */
  function Offset(n: nat, i: nat): (k: nat)
    requires i <= n
  {
    if i == 0 then 0 else n + Offset(n - 1, i - 1)
  }

  /** The run of words `i` up to `j` is at a known place of the list. */
  lemma {:induction false} PhraseAt(ws: seq<string>, i: nat, j: nat)
    requires i < j <= |ws|
    ensures var k := Offset(|ws|, i) + (|ws| - j);
      k < |Phrases(ws)| && Phrases(ws)[k] == Join(ws[i..j])
  {
    if i == 0 {
      RunAt(ws, |ws|, |ws| - j);
    } else {
      PhraseAt(ws[1..], i - 1, j - 1);
      assert ws[1..][i - 1..j - 1] == ws[i..j];
    }
  }

  /** The list holds nothing but runs. */
  lemma {:induction false} PhraseIsRun(ws: seq<string>, k: nat)
    requires k < |Phrases(ws)|
    ensures exists i, j :: 0 <= i < j <= |ws| && Phrases(ws)[k] == Join(ws[i..j])
  {
    var n := |ws|;
    if k < n {
      RunAt(ws, n, k);
      assert Phrases(ws)[k] == Join(ws[0..n - k]);
    } else {
      PhraseIsRun(ws[1..], k - n);
      var i, j :| 0 <= i < j <= n - 1 && Phrases(ws[1..])[k - n] == Join(ws[1..][i..j]);
      assert ws[1..][i..j] == ws[i + 1..j + 1];
      assert Phrases(ws)[k] == Join(ws[i + 1..j + 1]);
    }
  }

  /** A text cut at each of its spaces before `d`, from the right. */
  function Cuts(text: string, d: nat): seq<string>
    requires d <= |text|
  {
    if d == 0 then [] else (if text[d - 1] == ' ' then [text[..d - 1]] else []) + Cuts(text, d - 1)
  }

  lemma {:induction false} CutsOfPrefix(text: string, more: string, d: nat)
    requires d <= |text|
    ensures Cuts(text + more, d) == Cuts(text, d)
  {
    if d > 0 {
      CutsOfPrefix(text, more, d - 1);
      assert (text + more)[d - 1] == text[d - 1] && (text + more)[..d - 1] == text[..d - 1];
    }
  }

  /** Within a word nothing is cut. */
  lemma {:induction false} CutsOfWord(text: string, w: string, n: nat)
    requires n <= |w| && forall c :: c in w ==> !Separator(c)
    ensures Cuts(text + w, |text| + n) == Cuts(text, |text|)
  {
    if n == 0 {
      CutsOfPrefix(text, w, |text|);
    } else {
      CutsOfWord(text, w, n - 1);
      assert w[n - 1] in w;
      assert (text + w)[|text| + n - 1] == w[n - 1];
    }
  }

  lemma {:induction false} JoinLast(ws: seq<string>, n: nat)
    requires 1 < n <= |ws|
    ensures Join(ws[..n]) == Join(ws[..n - 1]) + " " + ws[n - 1]
  {
    var init := ws[..n];
    assert init[1..] == ws[1..][..n - 1];
    if n == 2 {
      assert Join(init[1..]) == ws[1];
      assert ws[..1] == [ws[0]];
    } else {
      JoinLast(ws[1..], n - 1);
      assert ws[..n - 1][1..] == ws[1..][..n - 2];
    }
  }

  /** Cutting the joined words at their spaces gives the runs that start with the first word. */
  lemma {:induction false} CutsAreRuns(ws: seq<string>, n: nat)
    requires AreWords(ws) && 0 < n <= |ws|
    ensures Cuts(Join(ws[..n]), |Join(ws[..n])|) == RunsFromFirst(ws, n - 1)
  {
    var last := ws[n - 1];
    assert last in ws;
    if n == 1 {
      assert Join(ws[..1]) == "" + last;
      CutsOfWord("", last, |last|);
    } else {
      var before := Join(ws[..n - 1]);
      JoinLast(ws, n);
      CutsOfWord(before + " ", last, |last|);
      CutsOfPrefix(before, " ", |before|);
      assert (before + " ")[..|before|] == before;
      CutsAreRuns(ws, n - 1);
    }
  }

  /** The runs that start with the first word are the text and its cuts. */
  lemma RunsOfText(ws: seq<string>)
    requires AreWords(ws) && ws != []
    ensures Phrases(ws) == [Join(ws)] + Cuts(Join(ws), |Join(ws)|) + Phrases(ws[1..])
    ensures AreWords(ws[1..])
  {
    assert ws[..|ws|] == ws;
    CutsAreRuns(ws, |ws|);
    assert forall w :: w in ws[1..] ==> w in ws;
  }

  /** The inner loop of `search_split_phrases`: a copy of the text is cut at its spaces, from the right. */
  method CutPhrases(text: string) returns (phrases: seq<string>)
    ensures phrases == Cuts(text, |text|)
  {
    var tmp, d := text, |text| - 1;
    phrases := [];
    while d >= 0
      invariant -1 <= d < |tmp| <= |text| && tmp == text[..|tmp|]
      invariant Cuts(text, |text|) == phrases + Cuts(text, d + 1)
    {
      if tmp[d] == ' ' {
        tmp := tmp[..d];
        phrases := phrases + [tmp];
      }
      d := d - 1;
    }
  }

  /** Where the text goes on behind the word at `s`. */
  method NextWord(str: string, from: nat, ghost ws: seq<string>) returns (s: nat)
    requires from <= |str| && str[from..] == Join(ws) && ws != [] && AreWords(ws)
    ensures from < s <= |str| && str[s..] == Join(ws[1..])
  {
    var word := ws[0];
    assert word in ws;
    var rest := if |ws| == 1 then "" else " " + Join(ws[1..]);
    assert str[from..] == word + rest;
    s := from + 1;
    while s < |str| && str[s] != ' '
      invariant from < s <= from + |word|
      decreases |str| - s
    {
      assert str[s] == (word + rest)[s - from];
      s := s + 1;
    }
    if s - from < |word| {
      assert str[s] == (word + rest)[s - from] == word[s - from];
      assert word[s - from] in word;
    }
    if s < |str| {
      s := s + 1;
    }
    assert str[s..] == str[from..][s - from..];
  }

  /** `search_split_phrases` of an address in normal form: all runs of its words. */
  method SplitPhrases(str: string, ghost ws: seq<string>) returns (phrases: seq<string>)
    requires str == Join(ws) && ws != [] && AreWords(ws)
    ensures phrases == Phrases(ws)
  {
    phrases := [];
    var s := 0;
    ghost var left := ws;
    assert str[0..] == str;
    while s < |str|
      invariant s <= |str| && str[s..] == Join(left) && AreWords(left)
      invariant Phrases(ws) == phrases + Phrases(left)
      decreases |str| - s
    {
      assert left != [];
      var cuts := CutPhrases(str[s..]);
      RunsOfText(left);
      phrases := phrases + ([str[s..]] + cuts);
      s := NextWord(str, s, left);
      left := left[1..];
    }
    if left != [] {
      JoinNotEmpty(left);
    }
  }

  /** An address with a word, from `search_fix_spaces` through `search_split_phrases`: all runs of its words. */
  method PhrasesOf(address: string) returns (phrases: seq<string>)
    requires CString(address) && Words(address) != []
    ensures phrases == Phrases(Words(address))
    ensures 2 * |phrases| == |Words(address)| * (|Words(address)| + 1)
  {
    var fixed := FixSpaces(address);
    phrases := SplitPhrases(fixed.text, Words(address));
    PhraseCount(Words(address));
  }

  /** Normalising twice is normalising once. */
  lemma FixedStaysFixed(str: string)
    ensures Words(Join(Words(str))) == Words(str)
  {
    WordsOfJoin(Words(str));
  }

  /** A word ends at a separator or at the end of the address. */
  lemma WordAhead(w: string, rest: string)
    requires w != "" && (forall c :: c in w ==> c !in ",/ ") && (rest != "" ==> rest[0] in ",/ ")
    ensures Words(w + rest) == [w] + Words(rest)
  {
    var s := w + rest;
    WordEnds(w, rest);
    assert s[0] == w[0] && w[0] in w;
    assert s[..|w|] == w && s[|w|..] == rest;
  }

  lemma {:induction false} WordEnds(w: string, rest: string)
    requires (forall c :: c in w ==> c !in ",/ ") && (rest != "" ==> rest[0] in ",/ ")
    ensures WordLength(w + rest) == |w|
  {
    if w == "" {
      assert w + rest == rest;
    } else {
      assert (w + rest)[1..] == w[1..] + rest && w[0] in w;
      WordEnds(w[1..], rest);
    }
  }

  /** A separator in front of an address does not matter. */
  lemma SeparatorAhead(c: char, rest: string)
    requires c in ",/ "
    ensures Words([c] + rest) == Words(rest)
  {
    assert ([c] + rest)[1..] == rest;
  }
}
