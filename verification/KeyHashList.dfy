/** Governance key hashes as one line of text: printed space-separated, parsed by whitespace. */
module KeyHashList {
  import opened Prelude

  /** The hex codec of a key hash and the notion of whitespace, left open. */
  datatype Text<!H> = Text(space: char -> bool, encode: H -> string, decode: string -> Option<H>)

  /** What the codec has to promise. */
  ghost predicate Proper<H(!new)>(t: Text<H>) {
    && t.space(' ')
    && (forall h :: t.decode(t.encode(h)) == Some(h))
    && (forall h :: t.encode(h) != [] && NoSpace(t, t.encode(h)))
  }

  predicate NoSpace<H>(t: Text<H>, s: string) {
    forall i :: 0 <= i < |s| ==> !t.space(s[i])
  }

  /** Words of `word + s`, where `word` is being read. */
  function WordsFrom<H>(t: Text<H>, word: string, s: string): seq<string>
    decreases |s|
  {
    if s == [] then (if word == [] then [] else [word])
    else if t.space(s[0]) then (if word == [] then [] else [word]) + WordsFrom(t, [], s[1..])
    else WordsFrom(t, word + [s[0]], s[1..])
  }

  function Words<H>(t: Text<H>, s: string): seq<string> {
    WordsFrom(t, [], s)
  }

  function ParseWords<H>(t: Text<H>, words: seq<string>): Result<seq<H>, string> {
    if words == [] then Ok([])
    else match t.decode(words[0])
      case None => Err(words[0])
      case Some(h) =>
        match ParseWords(t, words[1..])
        case Err(e) => Err(e)
        case Ok(hs) => Ok([h] + hs)
  }

  /** The error names the first word that is no key hash. */
  function Parse<H>(t: Text<H>, s: string): Result<seq<H>, string> {
    ParseWords(t, Words(t, s))
  }

  lemma {:induction false} WordsFromSplit<H>(t: Text<H>, word: string, a: string, space: char, b: string)
    requires t.space(space)
    ensures WordsFrom(t, word, a + ([space] + b)) == WordsFrom(t, word, a) + Words(t, b)
    decreases |a|
  {
    var s := a + ([space] + b);
    if a == [] {
      assert s[1..] == b;
    } else {
      assert s[1..] == a[1..] + ([space] + b);
      if t.space(a[0]) {
        WordsFromSplit(t, [], a[1..], space, b);
        ConcatAssoc(if word == [] then [] else [word], WordsFrom(t, [], a[1..]), Words(t, b));
      } else {
        WordsFromSplit(t, word + [a[0]], a[1..], space, b);
      }
    }
  }

  lemma {:induction false} OneWord<H>(t: Text<H>, word: string, rest: string)
    requires NoSpace(t, rest)
    ensures WordsFrom(t, word, rest) == if word + rest == [] then [] else [word + rest]
    decreases |rest|
  {
    if rest == [] {
      assert word + rest == word;
    } else {
      OneWord(t, word + [rest[0]], rest[1..]);
      assert word + [rest[0]] + rest[1..] == word + rest;
    }
  }

  /** The words of a text are what its whitespace separates: the laws that determine them. */
  lemma WordsBetweenSpaces<H>(t: Text<H>, word: string, a: string, space: char, b: string)
    requires NoSpace(t, word) && t.space(space)
    ensures Words(t, word) == if word == [] then [] else [word]
    ensures Words(t, a + ([space] + b)) == Words(t, a) + Words(t, b)
  {
    OneWord(t, [], word);
    assert [] + word == word;
    WordsFromSplit(t, [], a, space, b);
  }

  lemma {:induction false} ParseWordsIff<H>(t: Text<H>, words: seq<string>)
    ensures
      var r := ParseWords(t, words);
      && (r.Ok? ==> |r.value| == |words| && forall i :: 0 <= i < |words| ==> t.decode(words[i]) == Some(r.value[i]))
      && (r.Err? ==> exists i ::
            && 0 <= i < |words| && words[i] == r.error && t.decode(words[i]).None?
            && forall j :: 0 <= j < i ==> t.decode(words[j]).Some?)
  {
    if words != [] && t.decode(words[0]).Some? {
      ParseWordsIff(t, words[1..]);
      if ParseWords(t, words[1..]).Err? {
        var i :| && 0 <= i < |words[1..]| && words[1..][i] == ParseWords(t, words[1..]).error
                 && t.decode(words[1..][i]).None? && forall j :: 0 <= j < i ==> t.decode(words[1..][j]).Some?;
        assert words[i + 1] == words[1..][i];
        assert forall j :: 0 < j < i + 1 ==> words[j] == words[1..][j - 1];
      }
    }
  }

  /** A text is accepted if and only if all its words are key hashes, and then gives them in order; the
      error is the first word that is none. */
  lemma ParseIff<H>(t: Text<H>, s: string)
    ensures
      var words, r := Words(t, s), Parse(t, s);
      && (r.Ok? <==> forall i :: 0 <= i < |words| ==> t.decode(words[i]).Some?)
      && (r.Ok? ==> |r.value| == |words| && forall i :: 0 <= i < |words| ==> t.decode(words[i]) == Some(r.value[i]))
      && (r.Err? ==> exists i ::
            && 0 <= i < |words| && words[i] == r.error && t.decode(words[i]).None?
            && forall j :: 0 <= j < i ==> t.decode(words[j]).Some?)
  {
    ParseWordsIff(t, Words(t, s));
  }

  function ShowTail<H>(t: Text<H>, hs: seq<H>): string {
    if hs == [] then "" else " " + t.encode(hs[0]) + ShowTail(t, hs[1..])
  }

  function Show<H>(t: Text<H>, hs: seq<H>): string {
    if hs == [] then "" else t.encode(hs[0]) + ShowTail(t, hs[1..])
  }

  lemma {:induction false} ShowTailSnoc<H>(t: Text<H>, hs: seq<H>, h: H)
    ensures ShowTail(t, hs + [h]) == ShowTail(t, hs) + (" " + t.encode(h))
  {
    if hs == [] {
      assert hs + [h] == [h];
      assert [h][1..] == [];
    } else {
      ShowTailSnoc(t, hs[1..], h);
      assert (hs + [h])[1..] == hs[1..] + [h];
      ConcatAssoc(" " + t.encode(hs[0]), ShowTail(t, hs[1..]), " " + t.encode(h));
    }
  }

  /** Nothing for no hash, one alone as it is, and every further one after a single space. */
  lemma ShowSnoc<H>(t: Text<H>, hs: seq<H>, h: H)
    ensures Show(t, []) == "" && Show(t, [h]) == t.encode(h)
    ensures hs != [] ==> Show(t, hs + [h]) == Show(t, hs) + (" " + t.encode(h))
  {
    assert [h][1..] == [];
    assert t.encode(h) + "" == t.encode(h);
    if hs != [] {
      assert (hs + [h])[1..] == hs[1..] + [h];
      ShowTailSnoc(t, hs[1..], h);
      ConcatAssoc(t.encode(hs[0]), ShowTail(t, hs[1..]), " " + t.encode(h));
    }
  }

  method Print<H>(t: Text<H>, hs: seq<H>) returns (s: string)
    ensures s == Show(t, hs)
  {
    s := "";
    if hs == [] {
      return;
    }
    s := t.encode(hs[0]);
    for i := 1 to |hs|
      invariant s + ShowTail(t, hs[i..]) == Show(t, hs)
    {
      ghost var before := s;
      assert hs[i..][1..] == hs[i + 1..];
      s := s + " ";
      s := s + t.encode(hs[i]);
      assert s == before + (" " + t.encode(hs[i]));
      ConcatAssoc(before, " " + t.encode(hs[i]), ShowTail(t, hs[i + 1..]));
    }
  }

  method ParseList<H>(t: Text<H>, s: string) returns (r: Result<seq<H>, string>)
    ensures r == Parse(t, s)
  {
    var words := Words(t, s);
    var hashes: seq<H> := [];
    assert words[0..] == words;
    assert ParseWords(t, words).Ok? ==> hashes + ParseWords(t, words).value == ParseWords(t, words).value;
    for i := 0 to |words|
      invariant ParseWords(t, words) == match ParseWords(t, words[i..])
                                        case Ok(rest) => Ok(hashes + rest)
                                        case Err(e) => Err(e)
    {
      assert words[i..][1..] == words[i + 1..];
      var h := t.decode(words[i]);
      if h.None? {
        return Err(words[i]);
      }
      ghost var rest := ParseWords(t, words[i + 1..]);
      if rest.Ok? {
        ConcatAssoc(hashes, [h.value], rest.value);
      }
      hashes := hashes + [h.value];
    }
    r := Ok(hashes);
    assert hashes + [] == hashes;
  }

  function Encoded<H>(t: Text<H>, hs: seq<H>): (r: seq<string>)
    ensures |r| == |hs| && forall i :: 0 <= i < |hs| ==> r[i] == t.encode(hs[i])
  {
    if hs == [] then [] else [t.encode(hs[0])] + Encoded(t, hs[1..])
  }

  /** Reading a word without spaces only extends the word being read. */
  lemma {:induction false} ReadsWord<H>(t: Text<H>, word: string, w: string, s: string)
    requires NoSpace(t, w)
    ensures WordsFrom(t, word, w + s) == WordsFrom(t, word + w, s)
    decreases |w|
  {
    if w == [] {
      assert w + s == s && word + w == word;
    } else {
      assert (w + s)[1..] == w[1..] + s && (w + s)[0] == w[0];
      ReadsWord(t, word + [w[0]], w[1..], s);
      assert word + [w[0]] + w[1..] == word + w;
    }
  }

  lemma {:induction false} TailWords<H(!new)>(t: Text<H>, word: string, hs: seq<H>)
    requires Proper(t) && word != []
    ensures WordsFrom(t, word, ShowTail(t, hs)) == [word] + Encoded(t, hs)
    decreases |hs|
  {
    if hs != [] {
      var e, rest := t.encode(hs[0]), ShowTail(t, hs[1..]);
      var s := ShowTail(t, hs);
      assert s[0] == ' ' && s[1..] == e + rest;
      ReadsWord(t, [], e, rest);
      assert [] + e == e;
      TailWords(t, e, hs[1..]);
    }
  }

  lemma {:induction false} ParseEncoded<H(!new)>(t: Text<H>, hs: seq<H>)
    requires Proper(t)
    ensures ParseWords(t, Encoded(t, hs)) == Ok(hs)
  {
    if hs != [] {
      ParseEncoded(t, hs[1..]);
      assert Encoded(t, hs)[1..] == Encoded(t, hs[1..]);
      assert [hs[0]] + hs[1..] == hs;
    }
  }

  /** Parsing the printed form returns the list, for every list including the empty one. */
  lemma ParseAfterShow<H(!new)>(t: Text<H>, hs: seq<H>)
    requires Proper(t)
    ensures Words(t, Show(t, hs)) == Encoded(t, hs)
    ensures Parse(t, Show(t, hs)) == Ok(hs)
  {
    if hs != [] {
      var e, rest := t.encode(hs[0]), ShowTail(t, hs[1..]);
      ReadsWord(t, [], e, rest);
      assert [] + e == e;
      TailWords(t, e, hs[1..]);
      assert [e] + Encoded(t, hs[1..]) == Encoded(t, hs);
    }
    ParseEncoded(t, hs);
  }

  /** Any surplus whitespace and spelling of an accepted text is normalised by printing it again. */
  lemma ShowNormalises<H(!new)>(t: Text<H>, s: string)
    requires Proper(t) && Parse(t, s).Ok?
    ensures Parse(t, Show(t, Parse(t, s).value)) == Parse(t, s)
  {
    ParseAfterShow(t, Parse(t, s).value);
  }
}
