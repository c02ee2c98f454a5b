/** UCI syntax, one line at a time: words with shell quoting, and the printer that the
    editor uses for the lines it writes. */
module UciText {
  import opened Wrappers
  import opened Text

  // ---- tokenize ----

  /** The rest of a double-quoted piece: what it adds, and what follows the closing quote. */
  function DoubleQuoted(s: string, cur: string): Option<(string, string)>
    decreases |s|
  {
    if s == [] then None
    else if s[0] == '\\' && |s| > 1 then DoubleQuoted(s[2..], cur + [s[1]])
    else if s[0] == '"' then Some((cur, s[1..]))
    else DoubleQuoted(s[1..], cur + [s[0]])
  }

  lemma {:induction false} DoubleQuotedShorter(s: string, cur: string)
    ensures DoubleQuoted(s, cur).Some? ==> |DoubleQuoted(s, cur).value.1| < |s|
    decreases |s|
  {
    if s != [] {
      if s[0] == '\\' && |s| > 1 {
        DoubleQuotedShorter(s[2..], cur + [s[1]]);
      } else if s[0] != '"' {
        DoubleQuotedShorter(s[1..], cur + [s[0]]);
      }
    }
  }

  /** The words of a line from a point inside it; None: an unterminated quote. */
  function WordsFrom(s: string, words: seq<string>, cur: string, inWord: bool): Option<seq<string>>
    decreases |s|
  {
    if s == [] then Some(if inWord then words + [cur] else words)
    else if s[0] == '#' && !inWord then Some(words)
    else if IsBlank(s[0]) then
      if inWord then WordsFrom(s[1..], words + [cur], "", false) else WordsFrom(s[1..], words, cur, false)
    else if s[0] == '\'' then
      var end := IndexOf(s[1..], '\'');
      if end == |s| - 1 then None else WordsFrom(s[end + 2..], words, cur + s[1..end + 1], true)
    else if s[0] == '"' then
      DoubleQuotedShorter(s[1..], cur);
      match DoubleQuoted(s[1..], cur)
      case None => None
      case Some((cur', rest)) => WordsFrom(rest, words, cur', true)
    else if s[0] == '\\' && |s| > 1 then WordsFrom(s[2..], words, cur + [s[1]], true)
    else WordsFrom(s[1..], words, cur + [s[0]], true)
  }

  function Words(s: string): Option<seq<string>> { WordsFrom(s, [], "", false) }

  /** The double-quoted piece that starts after s[from - 1]. */
  method ReadDoubleQuoted(s: string, from: nat, cur0: string) returns (closed: bool, cur: string, i: nat)
    requires from <= |s|
    ensures i <= |s|
    ensures DoubleQuoted(s[from..], cur0) == if closed then Some((cur, s[i..])) else None
  {
    closed, cur, i := false, cur0, from;
    while i < |s|
      invariant i <= |s|
      invariant DoubleQuoted(s[i..], cur) == DoubleQuoted(s[from..], cur0)
    {
      if s[i] == '\\' && i + 1 < |s| {
        assert s[i..][2..] == s[i + 2..];
        cur := cur + [s[i + 1]];
        i := i + 2;
        continue;
      }
      assert s[i..][1..] == s[i + 1..];
      if s[i] == '"' {
        return true, cur, i + 1;
      }
      cur := cur + [s[i]];
      i := i + 1;
    }
  }

  /** One step of the scan, by position. */
  lemma {:induction false} WordsStep(s: string, i: nat, words: seq<string>, cur: string, inWord: bool)
    requires i < |s|
    ensures s[i] == '#' && !inWord ==> WordsFrom(s[i..], words, cur, inWord) == Some(words)
    ensures IsBlank(s[i]) ==>
              WordsFrom(s[i..], words, cur, inWord) ==
              if inWord then WordsFrom(s[i + 1..], words + [cur], "", false) else WordsFrom(s[i + 1..], words, cur, false)
    ensures s[i] == '\'' ==>
              var end := IndexOf(s[i + 1..], '\'');
              if end == |s[i + 1..]| then WordsFrom(s[i..], words, cur, inWord) == None
              else i + end + 2 <= |s| &&
                   WordsFrom(s[i..], words, cur, inWord) == WordsFrom(s[i + end + 2..], words, cur + s[i + 1..i + 1 + end], true)
    ensures s[i] == '"' ==>
              match DoubleQuoted(s[i + 1..], cur)
              case None => WordsFrom(s[i..], words, cur, inWord) == None
              case Some((cur', rest)) => WordsFrom(s[i..], words, cur, inWord) == WordsFrom(rest, words, cur', true)
    ensures s[i] == '\\' && i + 1 < |s| ==>
              WordsFrom(s[i..], words, cur, inWord) == WordsFrom(s[i + 2..], words, cur + [s[i + 1]], true)
    ensures (s[i] == '\\' && i + 1 == |s|) || (BareChar(s[i]) && (s[i] != '#' || inWord)) ==>
              WordsFrom(s[i..], words, cur, inWord) == WordsFrom(s[i + 1..], words, cur + [s[i]], true)
  {
    var rest := s[i..];
    assert rest[1..] == s[i + 1..];
    if s[i] == '\'' {
      var end := IndexOf(s[i + 1..], '\'');
      if end < |s[i + 1..]| {
        assert rest[1..end + 1] == s[i + 1..i + 1 + end];
        assert rest[end + 2..] == s[i + end + 2..];
      }
    }
    if s[i] == '\\' && i + 1 < |s| {
      assert rest[2..] == s[i + 2..];
    }
  }

  lemma {:induction false} BlankStep(s: string, i: nat, words: seq<string>, cur: string, inWord: bool)
    requires i < |s| && IsBlank(s[i])
    ensures WordsFrom(s[i..], words, cur, inWord) ==
            WordsFrom(s[i + 1..], if inWord then words + [cur] else words, if inWord then "" else cur, false)
  {
    WordsStep(s, i, words, cur, inWord);
  }

  lemma {:induction false} SingleStep(s: string, i: nat, words: seq<string>, cur: string, inWord: bool, end: nat)
    requires i < |s| && s[i] == '\'' && end == IndexOf(s[i + 1..], '\'')
    ensures i + 1 + end == |s| ==> WordsFrom(s[i..], words, cur, inWord) == None
    ensures i + 1 + end < |s| ==>
              WordsFrom(s[i..], words, cur, inWord) == WordsFrom(s[i + end + 2..], words, cur + s[i + 1..i + 1 + end], true)
  {
    WordsStep(s, i, words, cur, inWord);
  }

  lemma {:induction false} DoubleStep(s: string, i: nat, words: seq<string>, cur: string, inWord: bool,
                                      closed: bool, cur': string, i': nat)
    requires i < |s| && s[i] == '"' && i' <= |s|
    requires DoubleQuoted(s[i + 1..], cur) == if closed then Some((cur', s[i'..])) else None
    ensures WordsFrom(s[i..], words, cur, inWord) == if closed then WordsFrom(s[i'..], words, cur', true) else None
    ensures closed ==> i < i'
  {
    WordsStep(s, i, words, cur, inWord);
    DoubleQuotedShorter(s[i + 1..], cur);
  }

  lemma {:induction false} EscapeStep(s: string, i: nat, words: seq<string>, cur: string, inWord: bool)
    requires i + 1 < |s| && s[i] == '\\'
    ensures WordsFrom(s[i..], words, cur, inWord) == WordsFrom(s[i + 2..], words, cur + [s[i + 1]], true)
  {
    WordsStep(s, i, words, cur, inWord);
  }

  lemma {:induction false} PlainStep(s: string, i: nat, words: seq<string>, cur: string, inWord: bool)
    requires i < |s| && ((s[i] == '\\' && i + 1 == |s|) || (BareChar(s[i]) && (s[i] != '#' || inWord)))
    ensures WordsFrom(s[i..], words, cur, inWord) == WordsFrom(s[i + 1..], words, cur + [s[i]], true)
  {
    WordsStep(s, i, words, cur, inWord);
  }

  lemma {:induction false} CommentStep(s: string, i: nat, words: seq<string>, cur: string)
    requires i < |s| && s[i] == '#'
    ensures WordsFrom(s[i..], words, cur, false) == Some(words)
  {
    WordsStep(s, i, words, cur, false);
  }

  method Tokenize(s: string) returns (res: Option<seq<string>>)
    ensures res == Words(s)
  {
    var words: seq<string>, cur, inWord, i: nat := [], "", false, 0;
    assert s[0..] == s;
    ghost var goal := Words(s);
    assert WordsFrom(s[i..], words, cur, inWord) == goal;
    hide WordsFrom, DoubleQuoted, IndexOf;
    while i < |s|
      invariant i <= |s|
      invariant WordsFrom(s[i..], words, cur, inWord) == goal
      decreases |s| - i
    {
      var c := s[i];
      if c == '#' && !inWord {
        CommentStep(s, i, words, cur);
        return Some(words);
      } else if c == ' ' || c == '\t' {
        BlankStep(s, i, words, cur, inWord);
        if inWord {
          words := words + [cur];
          cur := "";
          inWord := false;
        }
        i := i + 1;
      } else if c == '\'' {
        var end := IndexOf(s[i + 1..], '\'');
        SingleStep(s, i, words, cur, inWord, end);
        if end == |s[i + 1..]| {
          return None;
        }
        cur := cur + s[i + 1..i + 1 + end];
        inWord := true;
        i := i + end + 2;
      } else if c == '"' {
        var closed, cur', i' := ReadDoubleQuoted(s, i + 1, cur);
        DoubleStep(s, i, words, cur, inWord, closed, cur', i');
        if !closed {
          return None;
        }
        cur, i, inWord := cur', i', true;
      } else if c == '\\' && i + 1 < |s| {
        EscapeStep(s, i, words, cur, inWord);
        cur := cur + [s[i + 1]];
        inWord := true;
        i := i + 2;
      } else {
        PlainStep(s, i, words, cur, inWord);
        cur := cur + [c];
        inWord := true;
        i := i + 1;
      }
    }
    AtTheEnd(s, i, words, cur, inWord);
    if inWord {
      words := words + [cur];
    }
    return Some(words);
  }

  lemma {:induction false} AtTheEnd(s: string, i: nat, words: seq<string>, cur: string, inWord: bool)
    requires i == |s|
    ensures WordsFrom(s[i..], words, cur, inWord) == Some(if inWord then words + [cur] else words)
  {
  }

  // ---- Quote ----

  function EscapeQuotes(v: string): string {
    if v == [] then [] else (if v[0] == '\'' then "'\\''" else [v[0]]) + EscapeQuotes(v[1..])
  }

  function Quote(v: string): string { "'" + EscapeQuotes(v) + "'" }

  predicate NoQuote(v: string) { forall i | 0 <= i < |v| :: v[i] != '\'' }

  lemma {:induction false} EscapePlain(a: string, b: string)
    requires NoQuote(a)
    ensures EscapeQuotes(a + b) == a + EscapeQuotes(b)
  {
    if a == [] {
      assert a + b == b;
    } else {
      EscapePlain(a[1..], b);
      assert (a + b)[1..] == a[1..] + b;
    }
  }

  /** A single-quoted piece without a quote in it. */
  lemma {:induction false} PlainPiece(a: string, rest: string, words: seq<string>, cur: string, inWord: bool)
    requires NoQuote(a)
    ensures WordsFrom("'" + a + "'" + rest, words, cur, inWord) == WordsFrom(rest, words, cur + a, true)
  {
    var s := "'" + a + "'" + rest;
    assert s[1..] == a + "'" + rest;
    assert forall j | 0 <= j < |a| :: s[1..][j] == a[j];
    IndexOfIs(s[1..], '\'', |a|);
    assert s[|a| + 2..] == rest;
    assert s[1..|a| + 1] == a;
  }

  /** A quote between two pieces. */
  lemma {:induction false} EscapedQuote(rest: string, words: seq<string>, cur: string, inWord: bool)
    ensures WordsFrom("\\'" + rest, words, cur, inWord) == WordsFrom(rest, words, cur + "'", true)
  {
    var s := "\\'" + rest;
    assert s[2..] == rest && s[1] == '\'';
    assert cur + [s[1]] == cur + "'";
  }

  /** Where the first quote splits a value. */
  lemma {:induction false} QuoteSplits(v: string, k: nat)
    requires k < |v| && v[k] == '\'' && NoQuote(v[..k])
    ensures Quote(v) == "'" + v[..k] + "'" + ("\\'" + Quote(v[k + 1..]))
  {
    var a, b := v[..k], v[k + 1..];
    assert v == a + v[k..] && v[k..][1..] == b;
    EscapePlain(a, v[k..]);
    assert EscapeQuotes(v[k..]) == "'\\''" + EscapeQuotes(b);
  }

  lemma {:induction false} QuotePlain(v: string)
    requires NoQuote(v)
    ensures Quote(v) == "'" + v + "'"
  {
    assert v + [] == v;
    EscapePlain(v, []);
  }

  /** A quoted value adds exactly itself to the word, every quote and '#' included. */
  lemma {:induction false} QuotedPiece(v: string, rest: string, words: seq<string>, cur: string, inWord: bool)
    ensures WordsFrom(Quote(v) + rest, words, cur, inWord) == WordsFrom(rest, words, cur + v, true)
    decreases |v|
  {
    hide WordsFrom, Quote, EscapeQuotes;
    var k := IndexOf(v, '\'');
    if k == |v| {
      QuotePlain(v);
      PlainPiece(v, rest, words, cur, inWord);
    } else {
      var a, b := v[..k], v[k + 1..];
      var more := Quote(b) + rest;
      QuoteSplits(v, k);
      assert Quote(v) + rest == "'" + a + "'" + ("\\'" + more);
      PlainPiece(a, "\\'" + more, words, cur, inWord);
      EscapedQuote(more, words, cur + a, true);
      QuotedPiece(b, rest, words, cur + a + "'", true);
      assert cur + a + "'" + b == cur + v;
    }
  }

  // ---- bare words ----

  predicate BareChar(c: char) {
    !IsBlank(c) && c != '\'' && c != '"' && c != '\\'
  }

  /** A word that needs no quotes. */
  predicate Bare(w: string) {
    w != [] && w[0] != '#' && forall i | 0 <= i < |w| :: BareChar(w[i])
  }

  lemma {:induction false} BareTail(w: string, rest: string, words: seq<string>, cur: string)
    requires forall i | 0 <= i < |w| :: BareChar(w[i])
    ensures WordsFrom(w + rest, words, cur, true) == WordsFrom(rest, words, cur + w, true)
  {
    if w == [] {
      assert w + rest == rest && cur + w == cur;
    } else {
      assert (w + rest)[1..] == w[1..] + rest;
      BareTail(w[1..], rest, words, cur + [w[0]]);
      assert cur + [w[0]] + w[1..] == cur + w;
    }
  }

  /** A bare word and the blank after it. */
  lemma {:induction false} BareWord(w: string, rest: string, words: seq<string>)
    requires Bare(w)
    ensures WordsFrom(w + " " + rest, words, "", false) == WordsFrom(rest, words + [w], "", false)
  {
    var s := w + " " + rest;
    assert s[1..] == w[1..] + (" " + rest);
    BareTail(w[1..], " " + rest, words, [w[0]]);
    assert [w[0]] + w[1..] == w;
    assert (" " + rest)[1..] == rest;
    assert "" + [w[0]] == [w[0]];
  }

  lemma {:induction false} LastQuoted(v: string, words: seq<string>)
    ensures WordsFrom(Quote(v), words, "", false) == Some(words + [v])
  {
    assert Quote(v) + "" == Quote(v) && "" + v == v;
    QuotedPiece(v, "", words, "", false);
  }

  // ---- the lines the editor writes ----

  predicate ValidName(s: string) {
    s != [] && forall i | 0 <= i < |s| ::
      s[i] == '_' || 'a' <= s[i] <= 'z' || 'A' <= s[i] <= 'Z' || '0' <= s[i] <= '9'
  }

  function OptionRaw(option: string, value: string): string { "\toption " + option + " " + Quote(value) }

  function ConfigRaw(typ: string, name: string): string { "config " + typ + " " + Quote(name) }

  /** An option line reads back as its name and value, whatever the value. */
  lemma {:induction false} OptionReadsBack(option: string, value: string)
    requires ValidName(option)
    ensures Words(OptionRaw(option, value)) == Some(["option", option, value])
  {
    var raw := OptionRaw(option, value);
    assert raw[1..] == "option" + " " + (option + " " + Quote(value));
    BareWord("option", option + " " + Quote(value), []);
    BareWord(option, Quote(value), ["option"]);
    LastQuoted(value, ["option", option]);
    assert [] + ["option"] == ["option"];
    assert ["option"] + [option] == ["option", option];
    assert ["option", option] + [value] == ["option", option, value];
  }

  lemma {:induction false} ConfigReadsBack(typ: string, name: string)
    requires Bare(typ)
    ensures Words(ConfigRaw(typ, name)) == Some(["config", typ, name])
  {
    assert ConfigRaw(typ, name) == "config" + " " + (typ + " " + Quote(name));
    BareWord("config", typ + " " + Quote(name), []);
    BareWord(typ, Quote(name), ["config"]);
    LastQuoted(name, ["config", typ]);
    assert [] + ["config"] == ["config"];
    assert ["config"] + [typ] == ["config", typ];
    assert ["config", typ] + [name] == ["config", typ, name];
  }

  // ---- lines of a text ----

  function JoinLines(raws: seq<string>): string {
    if raws == [] then "" else raws[0] + "\n" + JoinLines(raws[1..])
  }

  predicate OneLine(s: string) { forall i | 0 <= i < |s| :: s[i] != '\n' }

  /** strings.ReplaceAll(s, "\r\n", "\n"). */
  function NoCrLf(s: string): string
    decreases |s|
  {
    if s == [] then ""
    else if s[0] == '\r' && |s| > 1 && s[1] == '\n' then "\n" + NoCrLf(s[2..])
    else [s[0]] + NoCrLf(s[1..])
  }

  /** strings.TrimSuffix(s, "\n"). */
  function TrimNewline(s: string): string {
    if s != [] && s[|s| - 1] == '\n' then s[..|s| - 1] else s
  }

  predicate Clean(raw: string) { OneLine(raw) && (raw == [] || raw[|raw| - 1] != '\r') }

  lemma {:induction false} NoCrLfOfLine(raw: string, rest: string)
    requires Clean(raw)
    ensures NoCrLf(raw + "\n" + rest) == raw + "\n" + NoCrLf(rest)
  {
    var s := raw + "\n" + rest;
    if raw == [] {
      assert s[1..] == rest;
    } else {
      assert s[1..] == raw[1..] + "\n" + rest;
      assert !(s[0] == '\r' && s[1] == '\n') by {
        if |raw| > 1 { assert s[1] == raw[1]; }
      }
      NoCrLfOfLine(raw[1..], rest);
    }
  }

  lemma {:induction false} NoCrLfOfLines(raws: seq<string>)
    requires forall i | 0 <= i < |raws| :: Clean(raws[i])
    ensures NoCrLf(JoinLines(raws)) == JoinLines(raws)
  {
    if raws != [] {
      NoCrLfOfLine(raws[0], JoinLines(raws[1..]));
      NoCrLfOfLines(raws[1..]);
    }
  }

  lemma {:induction false} SplitLine(raw: string, rest: string)
    requires OneLine(raw)
    ensures Split(raw + "\n" + rest) == [raw] + Split(rest)
  {
    var s := raw + "\n" + rest;
    assert forall j | 0 <= j < |raw| :: s[j] == raw[j];
    IndexOfIs(s, '\n', |raw|);
    assert s[..|raw|] == raw && s[|raw| + 1..] == rest;
  }

  /** Splitting what was joined gives the lines back. */
  lemma {:induction false} SplitOfJoined(raws: seq<string>)
    requires raws != [] && forall i | 0 <= i < |raws| :: OneLine(raws[i])
    ensures JoinLines(raws) != [] && JoinLines(raws)[|JoinLines(raws)| - 1] == '\n'
    ensures Split(TrimNewline(JoinLines(raws))) == raws
  {
    var text := JoinLines(raws);
    if |raws| == 1 {
      assert text == raws[0] + "\n";
      assert TrimNewline(text) == raws[0];
      assert IndexOf(raws[0], '\n') == |raws[0]|;
    } else {
      SplitOfJoined(raws[1..]);
      var rest := JoinLines(raws[1..]);
      assert text[|text| - 1] == rest[|rest| - 1];
      assert TrimNewline(text) == raws[0] + "\n" + TrimNewline(rest);
      SplitLine(raws[0], TrimNewline(rest));
    }
  }

  lemma {:induction false} JoinFirst(first: string, rest: seq<string>)
    ensures JoinLines([first] + rest) == first + "\n" + JoinLines(rest)
  {
    assert ([first] + rest)[1..] == rest;
  }

  lemma {:induction false} SplitGivesLines(s: string)
    ensures Split(s) != []
    ensures forall i | 0 <= i < |Split(s)| :: OneLine(Split(s)[i])
    ensures JoinLines(Split(s)) == s + "\n"
    decreases |s|
  {
    var i := IndexOf(s, '\n');
    if i < |s| {
      var first, rest := s[..i], s[i + 1..];
      SplitGivesLines(rest);
      assert Split(s) == [first] + Split(rest);
      assert s == first + "\n" + rest;
      hide Split, IndexOf;
      JoinFirst(first, Split(rest));
      Assoc(first + "\n", rest, "\n");
    } else {
      assert [s][1..] == [];
    }
  }

  lemma {:induction false} NoCrLfShorter(s: string)
    ensures |NoCrLf(s)| <= |s|
    ensures |NoCrLf(s)| == |s| ==> forall i | 0 <= i < |s| - 1 :: !(s[i] == '\r' && s[i + 1] == '\n')
    decreases |s|
  {
    if s != [] {
      if s[0] == '\r' && |s| > 1 && s[1] == '\n' {
        NoCrLfShorter(s[2..]);
      } else {
        NoCrLfShorter(s[1..]);
        if |NoCrLf(s)| == |s| {
          forall i | 0 <= i < |s| - 1 ensures !(s[i] == '\r' && s[i + 1] == '\n') {
            if i > 0 { assert s[i] == s[1..][i - 1] && s[i + 1] == s[1..][i]; }
          }
        }
      }
    }
  }
}
