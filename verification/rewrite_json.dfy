/** What the textual operator rewrite does to a serialised query: on a
    query without control characters it is the same as rewriting every key
    and every string value on its own and serialising the result. So the
    filter handed to `JSON.parse` is the request's filter with `$` in front
    of every key or value word that is an operator, in both positions. */
module RewriteJson {
  import opened QueryValues
  import opened OperatorRewrite

  /** Every key and every string in the value, rewritten. */
  function RewriteStrings(v: QValue): (r: QValue)
    decreases v
  {
    match v
    case Str(s) => Str(Rewrite(s))
    case Arr(items) => Arr(RewriteItems(items))
    case Obj(es) => Obj(RewriteEntries(es))
  }

  function RewriteItems(items: seq<QValue>): (r: seq<QValue>)
    ensures |r| == |items|
    decreases items
  {
    if items == [] then [] else [RewriteStrings(items[0])] + RewriteItems(items[1..])
  }

  function RewriteEntries(es: seq<Entry>): (r: seq<Entry>)
    ensures |r| == |es|
    decreases es
  {
    if es == [] then []
    else [Entry(Rewrite(es[0].key), RewriteStrings(es[0].value))] + RewriteEntries(es[1..])
  }

  predicate NoControlText(s: string) {
    forall i :: 0 <= i < |s| ==> !IsControl(s[i])
  }

  /** No key or string in the value holds a control character. */
  predicate NoControl(v: QValue)
    decreases v
  {
    match v
    case Str(s) => NoControlText(s)
    case Arr(items) => NoControlItems(items)
    case Obj(es) => NoControlEntries(es)
  }

  predicate NoControlItems(items: seq<QValue>)
    decreases items
  {
    items == [] || (NoControl(items[0]) && NoControlItems(items[1..]))
  }

  predicate NoControlEntries(es: seq<Entry>)
    decreases es
  {
    es == [] || (NoControlText(es[0].key) && NoControl(es[0].value) && NoControlEntries(es[1..]))
  }

  // ---------------------------------------------------------------------
  // One string

  lemma EscapeCharNonWord(c: char)
    requires !IsControl(c) && !IsWordChar(c)
    ensures forall k :: 0 <= k < |EscapeChar(c)| ==> !IsWordChar(EscapeChar(c)[k])
  {
    var r := EscapeChar(c);
    assert r == [c] || r == ['\\', c];
  }

  lemma EscapeWord(w: string)
    requires AllWord(w)
    ensures Escape(w) == w
  {
    EscapePlain(w);
  }

  /** The rewrite of one word is still free of quotes, backslashes and
      control characters. */
  lemma EscapeRewrittenWord(w: string)
    requires |w| > 0 && AllWord(w)
    ensures Escape(Rewrite(w)) == Rewrite(w)
  {
    RewriteWord(w);
    if IsOperator(w) {
      EscapeConcat("$", w);
      EscapeWord(w);
    } else {
      EscapeWord(w);
    }
  }

  lemma EscapeStartsNonWord(s: string)
    requires |s| > 0
    ensures !IsControl(s[0]) && !IsWordChar(s[0]) ==> !IsWordChar(Escape(s)[0])
  {
    var r := EscapeChar(s[0]);
    assert Escape(s)[0] == r[0];
  }

  /** On a string without control characters, escaping and the rewrite
      commute: the escapes add only non-word characters next to non-word
      characters, so the words stay as they were. */
  lemma {:induction false} EscapeCommutes(s: string)
    requires NoControlText(s)
    ensures Rewrite(Escape(s)) == Escape(Rewrite(s))
    decreases |s|
  {
    if s == [] {
      assert Rewrite([]) == [];
    } else if IsWordChar(s[0]) {
      var j := WordEnd(s, 0);
      EscapeWordStep(s, j);
    } else {
      EscapeNonWordStep(s);
    }
  }

  lemma EscapeWordStep(s: string, j: int)
    requires NoControlText(s) && |s| > 0 && IsWordChar(s[0]) && j == WordEnd(s, 0)
    ensures Rewrite(Escape(s)) == Escape(Rewrite(s))
    decreases |s|, 0
  {
    var w, rest := s[..j], s[j..];
    TakeDrop(s, j);
    WordEndAllWord(s, 0);
    EscapeBeforeRewrite(w, rest);
    EscapeCommutes(rest);
    EscapeAfterRewrite(w, rest);
  }

  lemma EscapeBeforeRewrite(w: string, rest: string)
    requires |w| > 0 && AllWord(w) && NoControlText(rest)
    requires rest == [] || !IsWordChar(rest[0])
    ensures Rewrite(Escape(w + rest)) == Rewrite(w) + Rewrite(Escape(rest))
  {
    EscapeConcat(w, rest);
    EscapeWord(w);
    EscapedRestCut(w, rest);
    RewriteConcat(w, Escape(rest));
  }

  lemma EscapeAfterRewrite(w: string, rest: string)
    requires |w| > 0 && AllWord(w)
    requires rest == [] || !IsWordChar(rest[0])
    ensures Escape(Rewrite(w + rest)) == Rewrite(w) + Escape(Rewrite(rest))
  {
    if rest != [] {
      NonWordCut(w, rest);
    } else {
      assert w + rest == w;
    }
    RewriteConcat(w, rest);
    EscapeConcat(Rewrite(w), Rewrite(rest));
    EscapeRewrittenWord(w);
  }

  lemma TakeDrop<T>(s: seq<T>, j: int)
    requires 0 <= j <= |s|
    ensures s[..j] + s[j..] == s
  {
  }

  /** After a word, the escaped rest still starts a new word. */
  lemma EscapedRestCut(w: string, rest: string)
    requires NoControlText(rest)
    requires rest == [] || !IsWordChar(rest[0])
    ensures NoWordStraddles(w + Escape(rest), |w|)
  {
    if rest != [] {
      EscapeStartsNonWord(rest);
      NonWordCut(w, Escape(rest));
    } else {
      assert w + Escape(rest) == w;
    }
  }

  lemma EscapeNonWordStep(s: string)
    requires NoControlText(s) && |s| > 0 && !IsWordChar(s[0])
    ensures Rewrite(Escape(s)) == Escape(Rewrite(s))
    decreases |s|, 0
  {
    var c, rest := s[0], s[1..];
    assert s == [c] + rest;
    RewriteEscapedNonWord(c, rest);
    EscapeCommutes(rest);
    EscapeRewrittenNonWord(c, rest);
  }

  /** Rewriting the escaped text after a non-word character. */
  lemma RewriteEscapedNonWord(c: char, rest: string)
    requires !IsControl(c) && !IsWordChar(c)
    ensures Rewrite(Escape([c] + rest)) == EscapeChar(c) + Rewrite(Escape(rest))
  {
    EscapeConcat([c], rest);
    assert Escape([c]) == EscapeChar(c);
    EscapeCharNonWord(c);
    NonWordCut(EscapeChar(c), Escape(rest));
    RewriteConcat(EscapeChar(c), Escape(rest));
    RewriteNoWord(EscapeChar(c));
  }

  /** Escaping the rewritten text after a non-word character. */
  lemma EscapeRewrittenNonWord(c: char, rest: string)
    requires !IsControl(c) && !IsWordChar(c)
    ensures Escape(Rewrite([c] + rest)) == EscapeChar(c) + Escape(Rewrite(rest))
  {
    NonWordCut([c], rest);
    RewriteConcat([c], rest);
    RewriteNonWordChar(c);
    EscapeConcat([c], Rewrite(rest));
    assert Escape([c]) == EscapeChar(c);
  }

  lemma QuoteCommutes(s: string)
    requires NoControlText(s)
    ensures Rewrite(Quote(s)) == Quote(Rewrite(s))
  {
    RewriteBetween('"', Escape(s), '"');
    EscapeCommutes(s);
  }

  // ---------------------------------------------------------------------
  // Whole values

  /** The rewrite of the serialised value is the serialisation of the
      value with every key and string rewritten. */
  lemma {:induction false} SerializeCommutes(v: QValue)
    requires NoControl(v)
    ensures Rewrite(Serialize(v)) == Serialize(RewriteStrings(v))
    decreases v, 1
  {
    match v
    case Str(s) =>
      QuoteCommutes(s);
    case Arr(items) =>
      RewriteBetween('[', SerializeItems(items), ']');
      ItemsCommute(items);
    case Obj(es) =>
      RewriteBetween('{', SerializeMembers(es), '}');
      MembersCommute(es);
  }

  lemma {:induction false} ItemsCommute(items: seq<QValue>)
    requires NoControlItems(items)
    ensures Rewrite(SerializeItems(items)) == SerializeItems(RewriteItems(items))
    decreases items, 0
  {
    if items == [] {
      assert Rewrite([]) == [];
    } else {
      var r := RewriteItems(items);
      assert r[0] == RewriteStrings(items[0]) && r[1..] == RewriteItems(items[1..]);
      SerializeCommutes(items[0]);
      if |items| > 1 {
        RewriteAround(Serialize(items[0]), ',', SerializeItems(items[1..]));
        ItemsCommute(items[1..]);
      }
    }
  }

  lemma {:induction false} MemberCommutes(e: Entry)
    requires NoControlText(e.key) && NoControl(e.value)
    ensures Rewrite(SerializeMember(e)) == SerializeMember(Entry(Rewrite(e.key), RewriteStrings(e.value)))
    decreases e, 1
  {
    RewriteAround(Quote(e.key), ':', Serialize(e.value));
    QuoteCommutes(e.key);
    SerializeCommutes(e.value);
  }

  lemma {:induction false} MembersCommute(es: seq<Entry>)
    requires NoControlEntries(es)
    ensures Rewrite(SerializeMembers(es)) == SerializeMembers(RewriteEntries(es))
    decreases es, 0
  {
    if es == [] {
      assert Rewrite([]) == [];
    } else {
      var r := RewriteEntries(es);
      assert r[0] == Entry(Rewrite(es[0].key), RewriteStrings(es[0].value));
      assert r[1..] == RewriteEntries(es[1..]);
      MemberCommutes(es[0]);
      if |es| > 1 {
        RewriteAround(SerializeMember(es[0]), ',', SerializeMembers(es[1..]));
        MembersCommute(es[1..]);
      }
    }
  }
}
