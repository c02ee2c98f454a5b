/** The check of hostapd's PSK files: is a binding's passphrase on a wildcard line? A digest stands for its passphrase (it is injective). */
module Psk {
  import opened Wrappers
  import opened Text
  import opened GroupsPlan

  const WILDCARD := "00:00:00:00:00:00"

  datatype PskEntry = PskEntry(mac: string, key: string, vlan: string)

  function IndexBlank(s: string): (i: nat)
    ensures i <= |s|
    ensures i < |s| ==> IsBlank(s[i])
    ensures forall k | 0 <= k < i :: !IsBlank(s[k])
  {
    if s == [] || IsBlank(s[0]) then 0 else 1 + IndexBlank(s[1..])
  }

  // ---- one line: options with an `=`, then an address, then the passphrase ----

  /** strings.Cut at '='. */
  function CutField(tok: string): Option<(string, string)> {
    var i := IndexOf(tok, '=');
    if i < |tok| then Some((tok[..i], tok[i + 1..])) else None
  }

  lemma {:induction false} TrimLeftShorter(s: string, cut: char -> bool)
    ensures |TrimLeft(s, cut)| <= |s|
    ensures s != [] && cut(s[0]) ==> |TrimLeft(s, cut)| < |s|
    ensures TrimLeft(s, cut) != [] ==> !cut(TrimLeft(s, cut)[0])
  {
    if s != [] && cut(s[0]) {
      TrimLeftShorter(s[1..], cut);
    }
  }

  /** The fields and the rest of a trimmed line. */
  function ParseRest(rest: string, vlan: string): Option<PskEntry>
    decreases |rest|
  {
    var i := IndexBlank(rest);
    if i == |rest| then None
    else
      var tok := rest[..i];
      TrimLeftShorter(rest[i..], IsBlank);
      var after := TrimLeft(rest[i..], IsBlank);
      match CutField(tok)
      case Some((k, v)) => ParseRest(after, if k == "vlanid" then v else vlan)
      case None => if after != "" then Some(PskEntry(ToLower(tok), after, vlan)) else None
  }

  function ParseLine(line: string): Option<PskEntry> {
    var rest := TrimSpace(line);
    if rest == "" || rest[0] == '#' then None else ParseRest(rest, "")
  }

  method ParsePSKLine(line: string) returns (e: Option<PskEntry>)
    ensures e == ParseLine(line)
  {
    var rest := TrimSpace(line);
    if rest == "" || rest[0] == '#' {
      return None;
    }
    var vlan := "";
    while true
      invariant ParseRest(rest, vlan) == ParseLine(line)
      decreases |rest|
    {
      var i := IndexBlank(rest);
      if i == |rest| {
        return None;
      }
      var tok := rest[..i];
      TrimLeftShorter(rest[i..], IsBlank);
      rest := TrimLeft(rest[i..], IsBlank);
      match CutField(tok) {
        case Some((k, v)) =>
          if k == "vlanid" {
            vlan := v;
          }
        case None =>
          // Blanks inside `rest` stay.
          return if rest != "" then Some(PskEntry(ToLower(tok), rest, vlan)) else None;
      }
    }
  }

  // ---- the lines hostapd is given ----

  predicate Plain(s: string) {
    s != [] && forall i | 0 <= i < |s| :: !IsSpace(s[i]) && s[i] != '='
  }

  predicate Word(s: string) {
    forall i | 0 <= i < |s| :: !IsSpace(s[i])
  }

  datatype Field = Field(name: string, value: string)

  predicate ValidFields(fields: seq<Field>) {
    forall i | 0 <= i < |fields| :: Plain(fields[i].name) && fields[i].name[0] != '#' && Word(fields[i].value)
  }

  function Line(fields: seq<Field>, mac: string, key: string): string {
    if fields == [] then mac + " " + key
    else fields[0].name + "=" + fields[0].value + " " + Line(fields[1..], mac, key)
  }

  function VlanOf(fields: seq<Field>, vlan: string): string {
    if fields == [] then vlan
    else VlanOf(fields[1..], if fields[0].name == "vlanid" then fields[0].value else vlan)
  }

  lemma {:induction false} IndexBlankIs(s: string, k: nat)
    requires k < |s| && IsBlank(s[k]) && forall j | 0 <= j < k :: !IsBlank(s[j])
    ensures IndexBlank(s) == k
  {
    if k > 0 {
      IndexBlankIs(s[1..], k - 1);
    }
  }

  lemma {:induction false} TrimLeftKeeps(s: string, cut: char -> bool)
    requires s == [] || !cut(s[0])
    ensures TrimLeft(s, cut) == s
  {
  }

  /** A field is skipped (but for vlanid), whatever follows it. */
  lemma {:induction false} ParseField(f: Field, rest: string, vlan: string)
    requires Plain(f.name) && Word(f.value) && rest != [] && !IsBlank(rest[0])
    ensures ParseRest(f.name + "=" + f.value + " " + rest, vlan) ==
            ParseRest(rest, if f.name == "vlanid" then f.value else vlan)
  {
    var tok := f.name + "=" + f.value;
    var s := tok + " " + rest;
    assert s == f.name + "=" + f.value + " " + rest;
    forall j | 0 <= j < |tok| ensures !IsBlank(s[j]) {
      assert s[j] == tok[j];
      if j < |f.name| { assert tok[j] == f.name[j]; }
      if j > |f.name| { assert tok[j] == f.value[j - |f.name| - 1]; }
    }
    IndexBlankIs(s, |tok|);
    assert s[..|tok|] == tok;
    assert s[|tok|..] == " " + rest;
    assert (" " + rest)[1..] == rest;
    TrimLeftKeeps(rest, IsBlank);
    assert TrimLeft(" " + rest, IsBlank) == rest;
    IndexOfIs(tok, '=', |f.name|);
    assert tok[..|f.name|] == f.name && tok[|f.name| + 1..] == f.value;
  }

  lemma {:induction false} ParseKey(mac: string, key: string, vlan: string)
    requires Plain(mac) && key != [] && !IsBlank(key[0])
    ensures ParseRest(mac + " " + key, vlan) == Some(PskEntry(ToLower(mac), key, vlan))
  {
    var s := mac + " " + key;
    IndexBlankIs(s, |mac|);
    assert s[..|mac|] == mac;
    assert s[|mac|..] == " " + key;
    assert (" " + key)[1..] == key;
    TrimLeftKeeps(key, IsBlank);
    assert TrimLeft(" " + key, IsBlank) == key;
    assert forall i | 0 <= i < |mac| :: mac[i] != '=';
  }

  lemma {:induction false} LineStarts(fields: seq<Field>, mac: string, key: string)
    requires ValidFields(fields) && Plain(mac)
    ensures |Line(fields, mac, key)| > |key|
    ensures !IsSpace(Line(fields, mac, key)[0])
    ensures Line(fields, mac, key)[0] == if fields == [] then mac[0] else fields[0].name[0]
  {
    if fields != [] {
      LineStarts(fields[1..], mac, key);
    }
  }

  lemma {:induction false} ParseWholeLine(fields: seq<Field>, mac: string, key: string, vlan: string)
    requires ValidFields(fields) && Plain(mac) && key != [] && !IsBlank(key[0])
    ensures ParseRest(Line(fields, mac, key), vlan) == Some(PskEntry(ToLower(mac), key, VlanOf(fields, vlan)))
  {
    if fields == [] {
      ParseKey(mac, key, vlan);
    } else {
      LineStarts(fields[1..], mac, key);
      ParseField(fields[0], Line(fields[1..], mac, key), vlan);
      ParseWholeLine(fields[1..], mac, key, if fields[0].name == "vlanid" then fields[0].value else vlan);
    }
  }

  lemma {:induction false} LineEnds(fields: seq<Field>, mac: string, a: string, b: string)
    ensures Line(fields, mac, a + b) == Line(fields, mac, a) + b
  {
    if fields == [] {
      assert mac + " " + (a + b) == mac + " " + a + b;
    } else {
      LineEnds(fields[1..], mac, a, b);
      var head := fields[0].name + "=" + fields[0].value + " ";
      assert head + (Line(fields[1..], mac, a) + b) == head + Line(fields[1..], mac, a) + b;
    }
  }

  lemma {:induction false} TrimRightEnds(s: string, tail: string)
    requires s != [] && !IsSpace(s[|s| - 1]) && forall i | 0 <= i < |tail| :: IsSpace(tail[i])
    ensures TrimRight(s + tail, IsSpace) == s
  {
    if tail == [] {
      assert s + tail == s;
    } else {
      assert (s + tail)[..|s + tail| - 1] == s + tail[..|tail| - 1];
      TrimRightEnds(s, tail[..|tail| - 1]);
    }
  }

  predicate NoOuterBlanks(key: string) {
    key != [] && !IsSpace(key[0]) && !IsSpace(key[|key| - 1])
  }

  /** A passphrase without outer blanks is read back from every line it is on. */
  lemma {:induction false} LineReadBack(fields: seq<Field>, mac: string, key: string)
    requires ValidFields(fields) && Plain(mac) && mac[0] != '#' && NoOuterBlanks(key)
    ensures ParseLine(Line(fields, mac, key)) == Some(PskEntry(ToLower(mac), key, VlanOf(fields, "")))
  {
    var line := Line(fields, mac, key);
    LineStarts(fields, mac, key);
    TrimLeftKeeps(line, IsSpace);
    LineEnds(fields, mac, "", key);
    assert "" + key == key;
    assert line[|line| - 1] == key[|key| - 1];
    assert line + "" == line;
    TrimRightEnds(line, "");
    ParseWholeLine(fields, mac, key, "");
  }

  lemma {:induction false} TrimKeepsEnds(s: string)
    ensures TrimSpace(s) == [] || NoOuterBlanks(TrimSpace(s))
  {
    TrimLeftShorter(s, IsSpace);
    TrimRightFacts(TrimLeft(s, IsSpace));
  }

  lemma {:induction false} TrimRightFacts(s: string)
    ensures TrimRight(s, IsSpace) <= s
    ensures TrimRight(s, IsSpace) != [] ==> !IsSpace(TrimRight(s, IsSpace)[|TrimRight(s, IsSpace)| - 1])
  {
    if s != [] && IsSpace(s[|s| - 1]) {
      TrimRightFacts(s[..|s| - 1]);
    }
  }

  lemma {:induction false} ParsedKeyIsSuffix(rest: string, vlan: string)
    requires ParseRest(rest, vlan).Some?
    ensures var key := ParseRest(rest, vlan).value.key;
            key != [] && !IsBlank(key[0]) && |key| < |rest| && key == rest[|rest| - |key|..]
    decreases |rest|
  {
    var i := IndexBlank(rest);
    var after := TrimLeft(rest[i..], IsBlank);
    TrimLeftShorter(rest[i..], IsBlank);
    TrimLeftIsSuffix(rest[i..], IsBlank);
    assert after == rest[|rest| - |after|..];
    hide TrimLeft, IndexOf;
    match CutField(rest[..i]) {
      case Some(kv) =>
        ParsedKeyIsSuffix(after, if kv.0 == "vlanid" then kv.1 else vlan);
      case None =>
    }
  }

  lemma {:induction false} TrimLeftIsSuffix(s: string, cut: char -> bool)
    ensures |TrimLeft(s, cut)| <= |s| && TrimLeft(s, cut) == s[|s| - |TrimLeft(s, cut)|..]
  {
    if s != [] && cut(s[0]) {
      TrimLeftIsSuffix(s[1..], cut);
    }
  }

  /** A key read from any line has no blank at either end: what has one is never found. */
  lemma {:induction false} ParsedKeyHasNoOuterBlanks(line: string)
    requires ParseLine(line).Some?
    ensures var key := ParseLine(line).value.key;
            key != [] && !IsBlank(key[0]) && !IsSpace(key[|key| - 1])
  {
    TrimKeepsEnds(line);
    ParsedKeyIsSuffix(TrimSpace(line), "");
  }

  // ---- the check ----

  /** A file of the PSK directory; None: it could not be read. */
  datatype PskFile = PskFile(name: string, content: Option<string>)

  predicate IsPskFile(f: PskFile) {
    HasPrefix(f.name, "hostapd-") && HasSuffix(f.name, ".psk")
  }

  predicate UnsafeLine(line: string, keys: seq<string>) {
    ParseLine(line).Some? && ParseLine(line).value.mac == WILDCARD && ParseLine(line).value.key in keys
  }

  predicate UnsafeLines(lines: seq<string>, keys: seq<string>) {
    exists i | 0 <= i < |lines| :: UnsafeLine(lines[i], keys)
  }

  predicate UnsafeFile(f: PskFile, keys: seq<string>) {
    IsPskFile(f) && f.content.Some? && UnsafeLines(Split(f.content.value), keys)
  }

  /** `files` is None when the directory could not be listed. */
  predicate Unsafe(files: Option<seq<PskFile>>, keys: seq<string>) {
    files.Some? && exists i | 0 <= i < |files.value| :: UnsafeFile(files.value[i], keys)
  }

  method FileIsUnsafe(content: string, guard: set<string>, ghost keys: seq<string>) returns (bad: bool)
    requires forall k :: k in guard <==> k in keys
    ensures bad <==> UnsafeLines(Split(content), keys)
  {
    var lines := Split(content);
    hide Split, ParseLine;
    for i := 0 to |lines|
      invariant forall k | 0 <= k < i :: !UnsafeLine(lines[k], keys)
    {
      var e := ParsePSKLine(lines[i]);
      if e.None? || e.value.mac != WILDCARD || e.value.key !in guard {
        continue;
      }
      assert e == ParseLine(lines[i]) && e.value.key in keys;
      assert UnsafeLine(lines[i], keys);
      return true;
    }
    return false;
  }

  lemma {:induction false} NothingGuarded(files: Option<seq<PskFile>>)
    ensures !Unsafe(files, [])
  {
    assert forall line: string :: !UnsafeLine(line, []);
  }

  /** The loops over files, lines and keys. */
  method CheckPSKFiles(files: Option<seq<PskFile>>, bindingKeys: seq<string>) returns (unsafe: bool)
    ensures unsafe <==> Unsafe(files, bindingKeys)
  {
    if bindingKeys == [] || files.None? {
      NothingGuarded(files);
      return false;
    }
    var guard := set k | k in bindingKeys;
    for i := 0 to |files.value|
      invariant forall k | 0 <= k < i :: !UnsafeFile(files.value[k], bindingKeys)
    {
      var f := files.value[i];
      if !IsPskFile(f) || f.content.None? {
        continue;
      }
      var bad := FileIsUnsafe(f.content.value, guard, bindingKeys);
      if bad {
        return true;
      }
    }
    return false;
  }

  /** A readable PSK file gives the passphrase to every client. */
  ghost predicate GivesToEveryone(f: PskFile, key: string) {
    IsPskFile(f) && f.content.Some? &&
    exists i, fields: seq<Field> | 0 <= i < |Split(f.content.value)| && ValidFields(fields) ::
      Split(f.content.value)[i] == Line(fields, WILDCARD, key)
  }

  /** When the check passes, no readable PSK file gives a bound passphrase without outer
      blanks to every client. */
  lemma {:induction false} SafeMeansBound(files: seq<PskFile>, keys: seq<string>, i: nat, key: string)
    requires !Unsafe(Some(files), keys) && i < |files| && key in keys && NoOuterBlanks(key)
    ensures !GivesToEveryone(files[i], key)
  {
    if GivesToEveryone(files[i], key) {
      EveryoneIsUnsafe(files[i], key, keys);
    }
  }

  lemma {:induction false} LowerWildcard()
    ensures ToLower(WILDCARD) == WILDCARD
  {
  }

  lemma {:induction false} EveryoneIsUnsafe(f: PskFile, key: string, keys: seq<string>)
    requires GivesToEveryone(f, key) && key in keys && NoOuterBlanks(key)
    ensures UnsafeFile(f, keys)
  {
    var j, fields :| 0 <= j < |Split(f.content.value)| && ValidFields(fields)
                     && Split(f.content.value)[j] == Line(fields, WILDCARD, key);
    assert Plain(WILDCARD);
    hide ParseLine, Line, ValidFields, Split, IsPskFile, ToLower, NoOuterBlanks;
    LineReadBack(fields, WILDCARD, key);
    assert ToLower(WILDCARD) == WILDCARD by { LowerWildcard(); }
    assert UnsafeLine(Split(f.content.value)[j], keys);
  }

  /** A passphrase with a blank at an end is never found, on whatever line it stands: the
      check cannot see those bindings. */
  lemma {:induction false} OuterBlanksAreMissed(files: Option<seq<PskFile>>, keys: seq<string>)
    requires forall k | k in keys :: k != [] && (IsBlank(k[0]) || IsSpace(k[|k| - 1]))
    ensures !Unsafe(files, keys)
  {
    forall line: string ensures !UnsafeLine(line, keys) {
      if ParseLine(line).Some? {
        ParsedKeyHasNoOuterBlanks(line);
      }
    }
  }

  /** For a binding's passphrase (8 to 63 printable characters) the check is decided by
      that alone: a file with its wildcard line is caught if and only if the passphrase
      has no blank at either end. */
  lemma {:induction false} CaughtExactlyWithoutOuterBlanks(f: PskFile, key: string)
    requires ValidKey(key) && GivesToEveryone(f, key)
    ensures Unsafe(Some([f]), [key]) <==> key[0] != ' ' && key[|key| - 1] != ' '
  {
    if key[0] != ' ' && key[|key| - 1] != ' ' {
      assert NoOuterBlanks(key);
      if !Unsafe(Some([f]), [key]) {
        SafeMeansBound([f], [key], 0, key);
      }
    } else {
      OuterBlanksAreMissed(Some([f]), [key]);
    }
  }

  // ---- whole files, line by line ----

  /** A line of a PSK file: white space, a comment, or an entry. */
  datatype PskLine = Blank(text: string) | Comment(text: string) | KeyLine(fields: seq<Field>, mac: string, key: string)

  function Written(l: PskLine): string {
    match l
    case Blank(text) => text
    case Comment(text) => "#" + text
    case KeyLine(fields, mac, key) => Line(fields, mac, key)
  }

  predicate ValidLine(l: PskLine) {
    match l
    case Blank(text) => forall i | 0 <= i < |text| :: IsSpace(text[i])
    case Comment(_) => true
    case KeyLine(fields, mac, key) => ValidFields(fields) && Plain(mac) && mac[0] != '#' && NoOuterBlanks(key)
  }

  /** The entry is for every client, and its passphrase is a binding's. */
  predicate OpensBound(l: PskLine, keys: seq<string>) {
    l.KeyLine? && ToLower(l.mac) == "00:00:00:00:00:00" && l.key in keys
  }

  lemma {:induction false} TrimBlank(text: string)
    requires forall i | 0 <= i < |text| :: IsSpace(text[i])
    ensures TrimSpace(text) == ""
  {
    if text != [] {
      TrimBlank(text[1..]);
      assert TrimLeft(text, IsSpace) == TrimLeft(text[1..], IsSpace);
    }
  }

  lemma {:induction false} CommentIsNone(text: string)
    ensures ParseLine("#" + text) == None
  {
    var line := "#" + text;
    assert line[0] == '#';
    TrimLeftKeeps(line, IsSpace);
    TrimRightFacts(line);
    var rest := TrimSpace(line);
    assert rest != [] ==> rest[0] == line[0];
  }

  /** One line of the check, in the words of the file. */
  lemma {:induction false} LineUnsafeExactly(l: PskLine, keys: seq<string>)
    requires ValidLine(l)
    ensures UnsafeLine(Written(l), keys) <==> OpensBound(l, keys)
  {
    match l
    case Blank(text) => TrimBlank(text);
    case Comment(text) => CommentIsNone(text);
    case KeyLine(fields, mac, key) =>
      LineReadBack(fields, mac, key);
      hide ParseLine;
  }

  /** The file holds these lines. */
  predicate Holds(f: PskFile, lines: seq<PskLine>) {
    f.content.Some? && |Split(f.content.value)| == |lines| &&
    forall j | 0 <= j < |lines| :: ValidLine(lines[j]) && Split(f.content.value)[j] == Written(lines[j])
  }

  lemma {:induction false} NamedExactly(name: string)
    ensures IsPskFile(PskFile(name, None)) <==> exists x: string :: name == "hostapd-" + x + ".psk"
  {
    var a, b := "hostapd-", ".psk";
    assert a[7] == '-' && forall k | 0 <= k < |b| :: b[k] != '-';
    assert IsPskFile(PskFile(name, None)) <==> HasPrefix(name, a) && HasSuffix(name, b);
    if HasPrefix(name, a) && HasSuffix(name, b) {
      EndsApart(name, a, b, 7);
      var x := Middle(name, a, b);
    }
    forall x: string | name == a + x + b ensures HasPrefix(name, a) && HasSuffix(name, b) {
      BothEnds(a, x, b);
    }
  }

  lemma {:induction false} BothEnds(a: string, x: string, b: string)
    ensures HasPrefix(a + x + b, a) && HasSuffix(a + x + b, b)
  {
    var s := a + x + b;
    assert s[..|a|] == a && s[|s| - |b|..] == b;
  }

  /** A prefix with a character that the suffix does not have stands before it. */
  lemma {:induction false} EndsApart(s: string, a: string, b: string, k: nat)
    requires HasPrefix(s, a) && HasSuffix(s, b) && |a| == k + 1 && forall j | 0 <= j < |b| :: b[j] != a[k]
    ensures |a| + |b| <= |s|
  {
    assert s[k] == s[..|a|][k] == a[k];
    var tail, from := s[|s| - |b|..], |s| - |b|;
    forall i | from <= i < |s| ensures s[i] != a[k] {
      assert s[i] == tail[i - from] == b[i - from];
    }
  }

  lemma {:induction false} Middle(s: string, a: string, b: string) returns (x: string)
    requires HasPrefix(s, a) && HasSuffix(s, b) && |a| + |b| <= |s|
    ensures s == a + x + b
  {
    x := s[|a|..|s| - |b|];
    assert s == s[..|a|] + x + s[|s| - |b|..];
  }

  /** Hostapd's own file by its name. */
  ghost predicate OfHostapd(f: PskFile) { exists x: string :: f.name == "hostapd-" + x + ".psk" }

  /** The check over whole files: unsafe if and only if a file of hostapd that could be read has
      an entry for every client with a binding's passphrase. A binding's own line, for one MAC,
      is none; nor are other files, comments and passphrases that no binding uses. */
  lemma {:induction false} UnsafeExactly(files: seq<PskFile>, lines: seq<seq<PskLine>>, keys: seq<string>)
    requires |files| == |lines| && forall i | 0 <= i < |files| && files[i].content.Some? :: Holds(files[i], lines[i])
    ensures Unsafe(Some(files), keys) <==>
              exists i, j | 0 <= i < |files| && 0 <= j < |lines[i]| ::
                OfHostapd(files[i]) && files[i].content.Some? && OpensBound(lines[i][j], keys)
  {
    hide OpensBound, UnsafeLine, IsPskFile, ValidLine, Written, Split;
    forall i | 0 <= i < |files|
      ensures UnsafeFile(files[i], keys) <==>
                OfHostapd(files[i]) && files[i].content.Some? && exists j | 0 <= j < |lines[i]| :: OpensBound(lines[i][j], keys)
    {
      FileUnsafeExactly(files[i], lines[i], keys);
    }
    hide UnsafeFile, OfHostapd, Holds;
  }

  lemma {:induction false} FileUnsafeExactly(f: PskFile, lines: seq<PskLine>, keys: seq<string>)
    requires f.content.Some? ==> Holds(f, lines)
    ensures UnsafeFile(f, keys) <==> OfHostapd(f) && f.content.Some? && exists j | 0 <= j < |lines| :: OpensBound(lines[j], keys)
  {
    NamedExactly(f.name);
    assert IsPskFile(f) <==> IsPskFile(PskFile(f.name, None));
    hide IsPskFile, OpensBound, UnsafeLine, ValidLine, Written, Split;
    if f.content.Some? {
      var raws := Split(f.content.value);
      forall j | 0 <= j < |lines| ensures UnsafeLine(raws[j], keys) <==> OpensBound(lines[j], keys) {
        LineUnsafeExactly(lines[j], keys);
      }
    }
  }
}
