/**
 src/proc-util.c: the kernel command line, split in place.  Separators and every '=' are overwritten with
 NUL, and the arguments point into the buffer.
 */
module CmdLine {
  import opened Options
  import opened CText


  // ---- what the arguments are -----------------------------------------------------------------

  datatype Arg = Arg(name: string, value: Option<string>)

  predicate Ends(c: char) {
    c == '\n' || c == NUL
  }

  function Emit(word: string): seq<string> {
    if word == [] then [] else [word]
  }

  /** The words of a command line, `word` being the part already seen; a word counts once its separator is seen. */
  function Words(word: string, rest: string): seq<string>
    decreases rest
  {
    if rest == [] then []
    else if Ends(rest[0]) then Emit(word)
    else if rest[0] == ' ' then Emit(word) + Words([], rest[1..])
    else Words(word + [rest[0]], rest[1..])
  }

  /** The place of the last '=' among the first `n` characters that is not the last character; -1 if there is none. */
  function LastCut(word: string, n: nat): (r: int)
    requires n <= |word|
    ensures -1 <= r < n && (r >= 0 ==> r + 1 < |word|)
  {
    if n == 0 then -1
    else if word[n - 1] == '=' && n < |word| then n - 1
    else LastCut(word, n - 1)
  }

  /** One word as the source takes it apart: it cuts at every '='. */
  function Taken(word: string): Arg {
    var cut := LastCut(word, |word|);
    Arg(Before(word, '='), if cut < 0 then None else Some(Before(word[cut + 1..], '=')))
  }

  function AllTaken(words: seq<string>): (r: seq<Arg>)
    ensures |r| == |words| && forall i :: 0 <= i < |r| ==> r[i] == Taken(words[i])
  {
    seq(|words|, i requires 0 <= i < |words| => Taken(words[i]))
  }

  /** A word as its writer means it: a name, and the text behind the first '=', if any. */
  function Meant(word: string): Arg {
    var name := Before(word, '=');
    BeforeLength(word, '=');
    Arg(name, if |name| + 1 < |word| then Some(word[|name| + 1..]) else None)
  }

  /** At most one '='. */
  ghost predicate OneEquals(word: string) {
    forall i, j :: 0 <= i < j < |word| ==> word[i] != '=' || word[j] != '='
  }

  lemma {:induction false} LastCutExact(word: string, n: nat)
    requires n <= |word|
    ensures var r := LastCut(word, n);
            && (r >= 0 ==> word[r] == '=')
            && (forall i :: r < i < n && i + 1 < |word| ==> word[i] != '=')
  {
    if n > 0 {
      LastCutExact(word, n - 1);
    }
  }

  /** Where the first '=' is, and that nothing is cut when nothing stands behind it. */
  lemma FirstCut(word: string)
    ensures var n, cut := |Before(word, '=')|, LastCut(word, |word|);
            && n <= |word| && '=' !in word[..n] && (n < |word| ==> word[n] == '=')
            && (if n + 1 < |word| then cut >= n && word[cut] == '=' else cut < 0)
  {
    var n, cut := |Before(word, '=')|, LastCut(word, |word|);
    BeforeLength(word, '=');
    LastCutExact(word, |word|);
    assert forall i :: 0 <= i < n ==> word[i] == word[..n][i];
  }

  lemma OneEqualsTaken(word: string)
    requires OneEquals(word)
    ensures Taken(word) == Meant(word)
  {
    var n, cut := |Before(word, '=')|, LastCut(word, |word|);
    FirstCut(word);
    if n + 1 < |word| {
      assert cut == n;
      BeforeLength(word[n + 1..], '=');
      assert '=' !in word[n + 1..];
    }
  }

  lemma TakenOneEquals(word: string)
    requires Taken(word) == Meant(word)
    ensures OneEquals(word)
  {
    hide *;
    var n, cut := |Before(word, '=')|, LastCut(word, |word|);
    FirstCut(word);
    assert forall i :: 0 <= i < n ==> word[i] == word[..n][i] && word[i] in word[..n];
    if n + 1 < |word| {
      var tail := word[n + 1..];
      ValueIs(word);
      BeforeLength(word[cut + 1..], '=');
      assert forall i :: n < i < |word| ==> word[i] == tail[i - n - 1] && word[i] in tail;
      NoneBehind(word, n);
    } else {
      OneAtTheEnd(word, n);
    }
  }

  lemma ValueIs(word: string)
    requires Taken(word) == Meant(word) && |Before(word, '=')| + 1 < |word| && LastCut(word, |word|) >= 0
    ensures word[|Before(word, '=')| + 1..] == Before(word[LastCut(word, |word|) + 1..], '=')
  {
    hide Before, LastCut;
  }

  lemma OneAtTheEnd(word: string, n: nat)
    requires n <= |word| <= n + 1 && forall i :: 0 <= i < n ==> word[i] != '='
    ensures OneEquals(word)
  {}

  lemma NoneBehind(word: string, n: nat)
    requires n < |word| && forall i :: 0 <= i < |word| && i != n ==> word[i] != '='
    ensures OneEquals(word)
  {}

  /** The source takes a word as it is meant exactly when the word has at most one '='. */
  lemma TakenExactly(word: string)
    ensures Taken(word) == Meant(word) <==> OneEquals(word)
  {
    hide *;
    if OneEquals(word) {
      OneEqualsTaken(word);
    }
    if Taken(word) == Meant(word) {
      TakenOneEquals(word);
    }
  }

  /** "a=b=c" gives the argument a the value c. */
  lemma TwoEquals()
    ensures Taken("a=b=c") == Arg("a", Some("c")) && Meant("a=b=c") == Arg("a", Some("b=c"))
  {
    var w := "a=b=c";
    assert w[1..] == "=b=c" && w[4..] == "c" && w[2..] == "b=c" && "c"[1..] == "";
    assert LastCut(w, 4) == 3 && LastCut(w, 5) == 3;
    assert Before("c", '=') == ['c'] + Before("", '=') == "c";
    assert Before("=b=c", '=') == "";
    assert Before(w, '=') == ['a'] + Before("=b=c", '=') == "a";
  }

  // ---- reading back what was written ----------------------------------------------------------

  function Written(a: Arg): string {
    if a.value.None? then a.name else a.name + "=" + a.value.value
  }

  function AllWritten(args: seq<Arg>): (r: seq<string>)
    ensures |r| == |args| && forall i :: 0 <= i < |r| ==> r[i] == Written(args[i])
  {
    seq(|args|, i requires 0 <= i < |args| => Written(args[i]))
  }

  /** Words with a blank between them. */
  function Joined(words: seq<string>): string {
    if words == [] then [] else words[0] + (if |words| == 1 then [] else " ") + Joined(words[1..])
  }

  /** Nothing that would end a word. */
  ghost predicate Unbroken(s: string) {
    s != [] && forall i :: 0 <= i < |s| ==> s[i] != ' ' && !Ends(s[i])
  }

  ghost predicate Plain(s: string) {
    forall i :: 0 <= i < |s| ==> s[i] != ' ' && !Ends(s[i]) && s[i] != '='
  }

  ghost predicate WellFormed(a: Arg) {
    Plain(a.name) && if a.value.None? then a.name != [] else Plain(a.value.value) && a.value.value != []
  }

  lemma {:induction false} WordScanned(word: string, more: string, rest: string)
    requires forall i :: 0 <= i < |more| ==> more[i] != ' ' && !Ends(more[i])
    ensures Words(word, more + rest) == Words(word + more, rest)
    decreases |more|
  {
    if more == [] {
      assert more + rest == rest && word + more == word;
    } else {
      assert (more + rest)[1..] == more[1..] + rest;
      WordScanned(word + [more[0]], more[1..], rest);
      assert word + [more[0]] + more[1..] == word + more;
    }
  }

  lemma WrittenTaken(a: Arg)
    requires WellFormed(a)
    ensures Unbroken(Written(a)) && Taken(Written(a)) == a
  {
    MeantWritten(a);
    WrittenUnbroken(a);
    hide *;
    TakenExactly(Written(a));
  }

  lemma WrittenUnbroken(a: Arg)
    requires WellFormed(a)
    ensures Unbroken(Written(a))
  {}

  lemma MeantWritten(a: Arg)
    requires WellFormed(a)
    ensures OneEquals(Written(a)) && Meant(Written(a)) == a
  {
    assert '=' !in a.name;
    if a.value.Some? {
      BeforeExact(a.name, '=', a.value.value);
      assert a.name + ['='] + a.value.value == Written(a);
      assert Written(a)[|a.name| + 1..] == a.value.value;
    } else {
      BeforeLength(a.name, '=');
    }
  }

  /** Words with blanks between them are read back in order, whatever they hold and whatever follows the end. */
  lemma {:induction false} WordsRoundTrip(words: seq<string>, end: char, junk: string)
    requires Ends(end) && forall i :: 0 <= i < |words| ==> Unbroken(words[i])
    ensures Words([], Joined(words) + [end] + junk) == words
    decreases |words|
  {
    if words == [] {
      assert ([] + [end] + junk)[0] == end;
    } else {
      var w, tail := words[0], words[1..];
      WordsRoundTrip(tail, end, junk);
      var rest := Joined(tail) + [end] + junk;
      FirstWord(w, if |words| == 1 then [end] + junk else " " + rest);
      hide Words;
      if |words| == 1 {
        assert Joined(words) + [end] + junk == w + ([end] + junk);
      } else {
        assert Joined(words) + [end] + junk == w + (" " + rest);
        assert (" " + rest)[1..] == rest;
      }
    }
  }

  /** A word and its separator. */
  lemma FirstWord(w: string, rest: string)
    requires Unbroken(w) && rest != [] && (rest[0] == ' ' || Ends(rest[0]))
    ensures Words([], w + rest) == [w] + if rest[0] == ' ' then Words([], rest[1..]) else []
  {
    WordScanned([], w, rest);
    assert [] + w == w;
  }

  /** So any number of well-formed arguments, written one after the other, are read back in order. */
  lemma ArgumentsRoundTrip(args: seq<Arg>, end: char, junk: string)
    requires Ends(end) && forall i :: 0 <= i < |args| ==> WellFormed(args[i])
    ensures AllTaken(Words([], Joined(AllWritten(args)) + [end] + junk)) == args
  {
    hide Taken, WellFormed, Written, Unbroken, Words, Joined;
    forall i | 0 <= i < |args| ensures Unbroken(AllWritten(args)[i]) && Taken(AllWritten(args)[i]) == args[i] {
      WrittenTaken(args[i]);
    }
    WordsRoundTrip(AllWritten(args), end, junk);
  }

  // ---- splitting in place ---------------------------------------------------------------------

  /** procutl_cmdline_elem_t: places in the buffer. */
  datatype Element = Element(name: nat, value: Option<nat>)

  /** The string that starts at a place of the buffer. */
  function TextAt(buf: string, at: nat): string
    requires at <= |buf|
  {
    Before(buf[at..], NUL)
  }

  /** The string is closed inside the buffer. */
  predicate Closed(buf: string, at: nat) {
    at <= |buf| && |TextAt(buf, at)| < |buf| - at
  }

  ghost predicate Points(buf: string, e: Element, a: Arg) {
    && Closed(buf, e.name) && TextAt(buf, e.name) == a.name
    && (e.value.None? <==> a.value.None?)
    && (e.value.Some? ==> Closed(buf, e.value.value) && TextAt(buf, e.value.value) == a.value.value)
  }

  ghost predicate AllPoint(buf: string, elems: seq<Element>, args: seq<Arg>) {
    |elems| == |args| && forall i :: 0 <= i < |elems| ==> Points(buf, elems[i], args[i])
  }

  /** What is closed in a part of the buffer stays the same when more of the buffer is looked at. */
  lemma AllPointExtends(buf: string, more: string, elems: seq<Element>, args: seq<Arg>)
    requires AllPoint(buf, elems, args)
    ensures AllPoint(buf + more, elems, args)
  {
    forall i | 0 <= i < |elems| ensures Points(buf + more, elems[i], args[i]) {
      var e := elems[i];
      assert Points(buf, e, args[i]);
      TextExtends(buf, more, e.name);
      if e.value.Some? {
        TextExtends(buf, more, e.value.value);
      }
    }
  }

  lemma TextExtends(buf: string, more: string, at: nat)
    requires Closed(buf, at)
    ensures Closed(buf + more, at) && TextAt(buf + more, at) == TextAt(buf, at)
  {
    assert (buf + more)[at..] == buf[at..] + more;
    BeforeExtends(buf[at..], more, NUL);
  }

  /** A word with its '=' overwritten. */
  function Masked(word: string): (r: string)
    ensures |r| == |word| && forall i :: 0 <= i < |r| ==> r[i] == if word[i] == '=' then NUL else word[i]
  {
    seq(|word|, i requires 0 <= i < |word| => if word[i] == '=' then NUL else word[i])
  }

  lemma {:induction false} MaskedText(word: string, rest: string)
    requires NUL !in word
    ensures Before(Masked(word) + [NUL] + rest, NUL) == Before(word, '=')
  {
    if word != [] {
      var m := Masked(word) + [NUL] + rest;
      assert word[0] in word && NUL !in word[1..];
      MaskedText(word[1..], rest);
      assert Masked(word)[1..] == Masked(word[1..]);
      assert m[1..] == Masked(word[1..]) + [NUL] + rest;
    }
  }

  /** The masked word behind `pre` is what its element points to. */
  lemma WordPoints(pre: string, word: string, value: Option<nat>)
    requires NUL !in word
    requires var cut := LastCut(word, |word|); value == if cut < 0 then None else Some(|pre| + cut + 1)
    ensures Points(pre + Masked(word) + [NUL], Element(|pre|, value), Taken(word))
  {
    hide *;
    var cut := LastCut(word, |word|);
    MaskedTail(pre, word, 0);
    assert word[0..] == word;
    if cut >= 0 {
      MaskedTail(pre, word, cut + 1);
    }
    PointsIs(pre + Masked(word) + [NUL], Element(|pre|, value), word);
  }

  lemma PointsIs(buf: string, e: Element, word: string)
    requires Closed(buf, e.name) && TextAt(buf, e.name) == Before(word, '=')
    requires e.value.Some? <==> LastCut(word, |word|) >= 0
    requires e.value.Some? ==> Closed(buf, e.value.value) && TextAt(buf, e.value.value) == Before(word[LastCut(word, |word|) + 1..], '=')
    ensures Points(buf, e, Taken(word))
  {
    hide TextAt, Before, LastCut;
  }

  /** The string that starts inside a masked word. */
  lemma MaskedTail(pre: string, word: string, k: nat)
    requires NUL !in word && k <= |word|
    ensures var buf := pre + Masked(word) + [NUL];
            Closed(buf, |pre| + k) && TextAt(buf, |pre| + k) == Before(word[k..], '=')
  {
    var buf, tail := pre + Masked(word) + [NUL], word[k..];
    assert NUL !in tail;
    assert buf[|pre| + k..] == Masked(tail) + [NUL] + [];
    MaskedText(tail, []);
    BeforeLength(tail, '=');
  }

  lemma CutStep(word: string, i: nat)
    ensures LastCut(word, 0) == -1
    ensures i < |word| ==> LastCut(word, i + 1) == if word[i] == '=' && i + 1 < |word| then i else LastCut(word, i)
  {}

  /** The inner loop: one word of the buffer is cut at every '='; the value points behind the last cut inside it. */
  method CutWord(buf: array<char>, start: nat, len: nat) returns (value: Option<nat>)
    requires start + len <= buf.Length
    modifies buf
    ensures var word := old(buf[start..start + len]);
            && buf[..] == old(buf[..start]) + Masked(word) + old(buf[start + len..])
            && (var cut := LastCut(word, len); value == if cut < 0 then None else Some(start + cut + 1))
  {
    hide LastCut, Masked;
    value := None;
    ghost var word := buf[start..start + len];
    CutStep(word, 0);
    for i := 0 to len
      invariant forall j :: 0 <= j < buf.Length && !(start <= j < start + i) ==> buf[j] == old(buf[j])
      invariant forall j :: 0 <= j < i ==> buf[start + j] == Masked(word)[j]
      invariant var cut := LastCut(word, i); value == if cut < 0 then None else Some(start + cut + 1)
    {
      CutStep(word, i);
      assert buf[start + i] == word[i];
      if buf[start + i] == '=' {
        buf[start + i] := NUL;
        if i + 1 < len {
          value := Some(start + i + 1);
        }
      }
    }
    assert buf[..start] == old(buf[..start]);
    ghost var cut := buf[start..start + len];
    assert forall j :: 0 <= j < len ==> cut[j] == buf[start + j] == Masked(word)[j];
    assert cut == Masked(word);
    assert buf[start + len..] == old(buf[start + len..]);
    assert buf[..] == buf[..start] + buf[start..start + len] + buf[start + len..];
  }

  /** strlen. */
  method Strlen(buf: array<char>, at: nat) returns (len: nat)
    requires at <= buf.Length && Closed(buf[..], at)
    ensures len == |TextAt(buf[..], at)|
  {
    len := 0;
    BeforeLength(buf[at..], NUL);
    assert buf[..][at..] == buf[at..];
    ghost var text := TextAt(buf[..], at);
    assert forall j :: 0 <= j < |text| ==> text[j] in text && text[j] != NUL;
    while buf[at + len] != NUL
      invariant len <= |text|
      decreases |text| - len
    {
      assert buf[at + len] == buf[at..][len];
      assert len < |text|;
      len := len + 1;
    }
    assert buf[at + len] == buf[at..][len];
  }

  /**
   procutil_create_argument_list: the elements point, inside the overwritten buffer, to the arguments of the
   command line as it was.
   */
  method CreateArgumentList(buf: array<char>) returns (elems: seq<Element>)
    modifies buf
    ensures AllPoint(buf[..], elems, AllTaken(Words([], old(buf[..]))))
  {
    hide *;
    elems := [];
    var counter, last := 0, 0;
    ghost var s, words: seq<string> := buf[..], [];
    NothingPoints();
    assert s[0..0] == [] && s[0..] == s && [] + Words([], s) == Words([], s) && buf[..0] == [];
    while counter < buf.Length
      invariant last <= counter <= buf.Length && |s| == buf.Length
      invariant buf[last..] == s[last..]
      invariant forall i :: last <= i < counter ==> s[i] != ' ' && !Ends(s[i])
      invariant AllPoint(buf[..last], elems, AllTaken(words))
      invariant words + Words(s[last..counter], s[counter..]) == Words([], s)
    {
      var c := buf[counter];
      assert c == buf[last..][counter - last] == s[last..][counter - last];
      ScanStep(s, last, counter);
      ghost var word := s[last..counter];
      if c == ' ' || Ends(c) {
        elems := CloseWord(buf, last, counter, elems, s, words);
        assert words + (Emit(word) + Words([], s[counter + 1..])) == (words + Emit(word)) + Words([], s[counter + 1..]);
        words := words + Emit(word);
        if Ends(c) {
          AllPointExtends(buf[..counter + 1], buf[counter + 1..], elems, AllTaken(words));
          assert buf[..] == buf[..counter + 1] + buf[counter + 1..];
          return;
        }
        assert s[counter + 1..counter + 1] == [];
        last := counter + 1;
      }
      counter := counter + 1;
    }
    NothingScanned(s[last..counter]);
    assert s[counter..] == [] && words + [] == words;
    AllPointExtends(buf[..last], buf[last..], elems, AllTaken(words));
    assert buf[..] == buf[..last] + buf[last..];
  }

  /** The character at `counter` ends the line, ends a word, or joins it. */
  lemma ScanStep(s: string, last: nat, counter: nat)
    requires last <= counter < |s|
    ensures var word, c := s[last..counter], s[counter];
            Words(word, s[counter..])
            == if Ends(c) then Emit(word)
               else if c == ' ' then Emit(word) + Words([], s[counter + 1..])
               else Words(s[last..counter + 1], s[counter + 1..])
  {
    var rest := s[counter..];
    assert rest[0] == s[counter] && rest[1..] == s[counter + 1..] && s[last..counter + 1] == s[last..counter] + [s[counter]];
  }

  lemma NothingScanned(word: string)
    ensures Words(word, []) == []
  {}

  lemma NothingPoints()
    ensures AllPoint([], [], AllTaken([]))
  {}

  /** A separator at `counter`: the word from `last` on is closed, measured, cut and listed. */
  method CloseWord(buf: array<char>, last: nat, counter: nat, elems0: seq<Element>, ghost s: string, ghost words: seq<string>)
      returns (elems: seq<Element>)
    requires last <= counter < buf.Length == |s| && buf[last..] == s[last..]
    requires forall i :: last <= i < counter ==> s[i] != ' ' && !Ends(s[i])
    requires AllPoint(buf[..last], elems0, AllTaken(words))
    modifies buf
    ensures buf[counter + 1..] == s[counter + 1..]
    ensures AllPoint(buf[..counter + 1], elems, AllTaken(words + Emit(s[last..counter])))
  {
    hide *;
    elems := elems0;
    ghost var pre, word := buf[..last], s[last..counter];
    var len := CloseText(buf, last, counter, s);
    if len > 0 {
      var value := CutWord(buf, last, len);
      Listed(pre, word, value, elems, words);
      assert buf[..counter + 1] == pre + Masked(word) + [NUL];
      elems := elems + [Element(last, value)];
      EmitIs(word);
    } else {
      AllPointExtends(pre, [NUL], elems, AllTaken(words));
      assert buf[..counter + 1] == pre + [NUL];
      EmitIs(word);
      assert words + [] == words;
    }
  }

  lemma EmitIs(word: string)
    ensures Emit(word) == if |word| == 0 then [] else [word]
  {}

  /** The separator becomes NUL; the word is measured. */
  method CloseText(buf: array<char>, last: nat, counter: nat, ghost s: string) returns (len: nat)
    requires last <= counter < buf.Length == |s| && buf[last..] == s[last..]
    requires forall i :: last <= i < counter ==> s[i] != ' ' && !Ends(s[i])
    modifies buf
    ensures buf[..last] == old(buf[..last]) && buf[last..counter] == s[last..counter] && buf[counter] == NUL
    ensures buf[counter + 1..] == s[counter + 1..]
    ensures len == counter - last && NUL !in s[last..counter]
  {
    ghost var word := s[last..counter];
    assert NUL !in word;
    assert forall i :: last <= i < buf.Length ==> buf[i] == buf[last..][i - last] && s[last..][i - last] == s[i];
    buf[counter] := NUL;
    assert buf[..][last..] == word + [NUL] + s[counter + 1..];
    hide *;
    WordClosed(buf[..], last, word, s[counter + 1..]);
    len := Strlen(buf, last);
  }

  /** One more word, and the element that points to it. */
  lemma Listed(pre: string, word: string, value: Option<nat>, elems: seq<Element>, words: seq<string>)
    requires NUL !in word && AllPoint(pre, elems, AllTaken(words))
    requires var cut := LastCut(word, |word|); value == if cut < 0 then None else Some(|pre| + cut + 1)
    ensures AllPoint(pre + Masked(word) + [NUL], elems + [Element(|pre|, value)], AllTaken(words + [word]))
  {
    hide Points, Taken, LastCut, Masked, AllPoint, AllTaken;
    WordPoints(pre, word, value);
    AllPointExtends(pre, Masked(word) + [NUL], elems, AllTaken(words));
    assert pre + (Masked(word) + [NUL]) == pre + Masked(word) + [NUL];
    AllPointSnoc(pre + Masked(word) + [NUL], elems, AllTaken(words), Element(|pre|, value), Taken(word));
    TakenSnoc(words, word);
  }

  lemma AllPointSnoc(buf: string, elems: seq<Element>, args: seq<Arg>, e: Element, a: Arg)
    requires AllPoint(buf, elems, args) && Points(buf, e, a)
    ensures AllPoint(buf, elems + [e], args + [a])
  {
    hide Points;
  }

  lemma TakenSnoc(words: seq<string>, word: string)
    ensures AllTaken(words + [word]) == AllTaken(words) + [Taken(word)]
  {
    hide Taken;
  }

  lemma WordClosed(buf: string, at: nat, word: string, rest: string)
    requires NUL !in word && at <= |buf| && buf[at..] == word + [NUL] + rest
    ensures Closed(buf, at) && TextAt(buf, at) == word
  {
    BeforeExact(word, NUL, rest);
  }

  // ---- looking an argument up -----------------------------------------------------------------

  const LONG_MAX := 0x7FFF_FFFF_FFFF_FFFF
  const ABBOOT_KEY := "aglabboot"

  predicate Digit(c: char) {
    '0' <= c <= '9'
  }

  /** The decimal number at the front of `s`, on top of `sofar`. */
  function Digits(s: string, sofar: nat): nat {
    if s == [] || !Digit(s[0]) then sofar else Digits(s[1..], sofar * 10 + (s[0] as int - '0' as int))
  }

  predicate Space(c: char) {
    c == ' ' || 9 as char <= c <= 13 as char
  }

  /**
   strtol in base 10: None if there is no number at the front, or if it is out of range - told by errno, so that with
   ERANGE left there (`erange`) the limits themselves count as out of range.
   */
  function Number(s: string, erange: bool): Option<int> {
    if s == [] then None
    else if Space(s[0]) then Number(s[1..], erange)
    else
      var negative := s[0] == '-';
      var t := if negative || s[0] == '+' then s[1..] else s;
      if t == [] || !Digit(t[0]) then None
      else
        var n: int := if negative then 0 - Digits(t, 0) else Digits(t, 0);
        if -LONG_MAX - 1 < n < LONG_MAX then Some(n)
        else if (n == LONG_MAX || n == -LONG_MAX - 1) && !erange then Some(n)
        else None
  }

  datatype Lookup = Found(value: int) | ConvertError | NotFound

  /** procutil_get_cmdline_value_int64: the first argument of that name that has a value decides. */
  function Get(args: seq<Arg>, key: string, erange: bool): Lookup {
    if args == [] then NotFound
    else if args[0].name == key && args[0].value.Some? then
      match Number(args[0].value.value, erange)
      case None => ConvertError
      case Some(v) => Found(v)
    else Get(args[1..], key, erange)
  }

  method GetValue(buf: array<char>, elems: seq<Element>, key: string, erange: bool, ghost args: seq<Arg>)
      returns (r: Lookup)
    requires AllPoint(buf[..], elems, args)
    ensures r == Get(args, key, erange)
  {
    var i := 0;
    assert args[0..] == args;
    while i < |elems|
      invariant i <= |elems| && Get(args[i..], key, erange) == Get(args, key, erange)
    {
      assert Points(buf[..], elems[i], args[i]);
      assert args[i..][0] == args[i] && args[i..][1..] == args[i + 1..];
      var name := TextAt(buf[..], elems[i].name);
      if name == key && elems[i].value.Some? {
        var number := Number(TextAt(buf[..], elems[i].value.value), erange);
        return if number.None? then ConvertError else Found(number.value);
      }
      i := i + 1;
    }
    assert args[i..] == [];
    r := NotFound;
  }

  /** The side to boot from: 1 if the command line says so, else 0. */
  function Side(cmdline: string): int {
    if Get(AllTaken(Words([], cmdline)), ABBOOT_KEY, false) == Found(1) then 1 else 0
  }

  lemma {:induction false} NumberOne(s: string)
    ensures Number(s, true) == Some(1) <==> Number(s, false) == Some(1)
  {
    if s != [] && Space(s[0]) {
      NumberOne(s[1..]);
    }
  }

  /** A left-over errno never changes the side. */
  lemma {:induction false} GetOne(args: seq<Arg>, key: string)
    ensures Get(args, key, true) == Found(1) <==> Get(args, key, false) == Found(1)
  {
    if args != [] {
      if args[0].name == key && args[0].value.Some? {
        NumberOne(args[0].value.value);
      } else {
        GetOne(args[1..], key);
      }
    }
  }

  /** The first half of container_mngsm_ab_boot_setup: the side the command line tells, whatever errno was left. */
  method AbBootSide(cmdline: array<char>, erange: bool) returns (value: int)
    modifies cmdline
    ensures value == Side(old(cmdline[..]))
  {
    ghost var args := AllTaken(Words([], cmdline[..]));
    var elems := CreateArgumentList(cmdline);
    var found := GetValue(cmdline, elems, ABBOOT_KEY, erange, args);
    GetOne(args, ABBOOT_KEY);
    value := if found.Found? then found.value else 0;
    if value != 1 {
      value := 0;
    }
  }

  /** The word speaks of the boot side: the key, '=' and something behind it. */
  predicate NamesSide(word: string) {
    ABBOOT_KEY + "=" < word
  }

  lemma KeyCut(word: string, key: string)
    requires '=' !in key
    ensures key + "=" <= word <==> Before(word, '=') == key && |key| < |word|
  {
    if key + "=" <= word {
      var rest := word[|key| + 1..];
      assert word == key + ['='] + rest;
      BeforeExact(key, '=', rest);
    } else {
      BeforeLength(word, '=');
      hide Before;
      NotCutThere(word, key);
    }
  }

  lemma NotCutThere(word: string, key: string)
    ensures |key| < |word| && word[..|key|] == key && word[|key|] == '=' ==> key + "=" <= word
  {
    assert |key| < |word| && word[..|key|] == key && word[|key|] == '=' ==> word[..|key| + 1] == key + "=";
  }

  lemma NamesSideExact(word: string)
    ensures NamesSide(word) <==> Taken(word).name == ABBOOT_KEY && Taken(word).value.Some?
  {
    KeyCut(word, ABBOOT_KEY);
    FirstCut(word);
    hide Before, LastCut;
  }

  lemma {:induction false} GetDecides(words: seq<string>, k: nat)
    requires k <= |words| && forall j :: 0 <= j < k ==> !NamesSide(words[j])
    ensures Get(AllTaken(words), ABBOOT_KEY, false) == Get(AllTaken(words[k..]), ABBOOT_KEY, false)
    decreases k
  {
    if k == 0 {
      assert words[0..] == words;
    } else {
      NamesSideExact(words[0]);
      hide NamesSide, Taken;
      assert AllTaken(words)[1..] == AllTaken(words[1..]);
      GetDecides(words[1..], k - 1);
      assert words[1..][k - 1..] == words[k..];
    }
  }

  /** Word `k` is the first that speaks of the side. */
  ghost predicate Decides(words: seq<string>, k: nat) {
    k < |words| && NamesSide(words[k]) && forall j :: 0 <= j < k ==> !NamesSide(words[j])
  }

  ghost predicate Silent(words: seq<string>) {
    forall k :: 0 <= k < |words| ==> !NamesSide(words[k])
  }

  /**
   Any command line boots side 1 exactly when its first word that speaks of the side takes the number 1;
   what the other words hold does not matter, and without such a word it is side 0.
   */
  lemma SideExact(cmdline: string)
    ensures var words := Words([], cmdline);
            && (forall k: nat :: Decides(words, k) ==>
                  Taken(words[k]).value.Some? && Side(cmdline) == if Number(Taken(words[k]).value.value, false) == Some(1) then 1 else 0)
            && (Silent(words) ==> Side(cmdline) == 0)
  {
    var words := Words([], cmdline);
    hide Words, NamesSide, Number;
    forall k: nat | Decides(words, k)
      ensures Taken(words[k]).value.Some?
      ensures Side(cmdline) == if Number(Taken(words[k]).value.value, false) == Some(1) then 1 else 0
    {
      GetDecides(words, k);
      NamesSideExact(words[k]);
      assert AllTaken(words[k..])[0] == Taken(words[k]);
    }
    if Silent(words) {
      NothingSaid(words);
    }
  }

  lemma NothingSaid(words: seq<string>)
    requires Silent(words)
    ensures Get(AllTaken(words), ABBOOT_KEY, false) == NotFound
  {
    hide NamesSide, Taken;
    GetDecides(words, |words|);
    assert AllTaken(words[|words|..]) == [];
  }
}
