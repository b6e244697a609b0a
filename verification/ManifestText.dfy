/**
 The task manifest as text, and its two readers: the validator searches the whole
 text with a regular expression whose blanks may cross line ends, the harness cuts
 the text into lines and splits each at its first colon.
 */
module ManifestText {
  import opened Common

  // ---- characters and stripping ----

  predicate KeyChar(c: char) {
    'a' <= c <= 'z' || 'A' <= c <= 'Z' || '0' <= c <= '9' || c == '_' || c == '-'
  }

  predicate IsKey(s: string) {
    s != "" && forall i :: 0 <= i < |s| ==> KeyChar(s[i])
  }

  function LowerChar(c: char): char {
    if 'A' <= c <= 'Z' then (c as int + 32) as char else c
  }

  function Lower(s: string): string {
    seq(|s|, i requires 0 <= i < |s| => LowerChar(s[i]))
  }

  /** The same letter in either case, or the same other character. */
  predicate SameLetter(c: char, d: char) {
    || c == d
    || ('A' <= c <= 'Z' && d as int - 'a' as int == c as int - 'A' as int)
    || ('A' <= d <= 'Z' && c as int - 'a' as int == d as int - 'A' as int)
  }

  /** Keys are compared without regard to case, and with regard to nothing else. */
  lemma LowerIgnoresCase(a: string, b: string)
    ensures Lower(a) == Lower(b) <==> |a| == |b| && forall i :: 0 <= i < |a| ==> SameLetter(a[i], b[i])
  {
    if Lower(a) == Lower(b) {
      assert |Lower(a)| == |a| && |Lower(b)| == |b|;
      forall i | 0 <= i < |a| ensures SameLetter(a[i], b[i]) {
        assert Lower(a)[i] == Lower(b)[i];
      }
    }
  }

  /** Blanks, key characters, the colon, the comment sign and quotes never overlap. */
  lemma CharacterClasses(c: char)
    ensures KeyChar(c) ==> !Space(c) && c != ':' && c != '#' && c != '"' && c != '\''
    ensures Space(c) ==> c != ':' && c != '#' && c != '"' && c != '\''
    ensures c == ' ' || c == '\t' || c == '\n' || c == '\r' ==> Space(c)
    ensures c == '-' || c == '_' || 48 <= c as int < 58 || 65 <= c as int < 91 || 97 <= c as int < 123 <==> KeyChar(c)
  {
  }

  predicate All(s: string, p: char -> bool) {
    forall i :: 0 <= i < |s| ==> p(s[i])
  }

  function StripLeft(s: string, p: char -> bool): string {
    if s != "" && p(s[0]) then StripLeft(s[1..], p) else s
  }

  function StripRight(s: string, p: char -> bool): string {
    if s != "" && p(s[|s| - 1]) then StripRight(s[..|s| - 1], p) else s
  }

  function Strip(s: string, p: char -> bool): string {
    StripRight(StripLeft(s, p), p)
  }

  function Trim(s: string): string {
    Strip(s, Space)
  }

  /** Nothing left to strip at either end. */
  predicate Bare(s: string, p: char -> bool) {
    s == "" || (!p(s[0]) && !p(s[|s| - 1]))
  }

  lemma {:induction false} StripLeftSplits(s: string, p: char -> bool) returns (a: string)
    ensures s == a + StripLeft(s, p) && All(a, p)
    ensures StripLeft(s, p) == "" || !p(StripLeft(s, p)[0])
  {
    if s != "" && p(s[0]) {
      var b := StripLeftSplits(s[1..], p);
      a := [s[0]] + b;
    } else {
      a := "";
    }
  }

  lemma {:induction false} StripRightSplits(s: string, p: char -> bool) returns (b: string)
    ensures s == StripRight(s, p) + b && All(b, p)
    ensures StripRight(s, p) == "" || !p(StripRight(s, p)[|StripRight(s, p)| - 1])
  {
    if s != "" && p(s[|s| - 1]) {
      var a := StripRightSplits(s[..|s| - 1], p);
      b := a + [s[|s| - 1]];
    } else {
      b := "";
    }
  }

  lemma StripSplits(s: string, p: char -> bool) returns (a: string, b: string)
    ensures s == a + Strip(s, p) + b && All(a, p) && All(b, p) && Bare(Strip(s, p), p)
  {
    a := StripLeftSplits(s, p);
    b := StripRightSplits(StripLeft(s, p), p);
  }

  lemma {:induction false} StripLeftPast(a: string, t: string, p: char -> bool)
    requires All(a, p) && (t == "" || !p(t[0]))
    ensures StripLeft(a + t, p) == t
  {
    if a == "" {
      assert a + t == t;
    } else {
      assert (a + t)[1..] == a[1..] + t;
      StripLeftPast(a[1..], t, p);
    }
  }

  lemma {:induction false} StripRightPast(t: string, b: string, p: char -> bool)
    requires All(b, p) && (t == "" || !p(t[|t| - 1]))
    ensures StripRight(t + b, p) == t
  {
    if b == "" {
      assert t + b == t;
    } else {
      assert (t + b)[..|t + b| - 1] == t + b[..|b| - 1];
      StripRightPast(t, b[..|b| - 1], p);
    }
  }

  /** Stripping is determined by what it removes and where it stops. */
  lemma StripIs(a: string, t: string, b: string, p: char -> bool)
    requires All(a, p) && All(b, p) && Bare(t, p)
    ensures Strip(a + t + b, p) == t
  {
    assert a + t + b == a + (t + b);
    if t == "" {
      assert a + (t + b) == (a + b) + "";
      StripLeftPast(a + b, "", p);
    } else {
      StripLeftPast(a, t + b, p);
      StripRightPast(t, b, p);
    }
  }

  /** Stripping fewer characters first makes no difference to stripping more. */
  lemma StripAbsorbs(s: string, p: char -> bool, q: char -> bool)
    requires forall c :: p(c) ==> q(c)
    ensures Strip(Strip(s, p), q) == Strip(s, q)
  {
    var t := Strip(s, p);
    var a, b := StripSplits(s, p);
    var x, y := StripSplits(t, q);
    assert s == (a + x) + Strip(t, q) + (y + b);
    StripIs(a + x, Strip(t, q), y + b, q);
  }

  lemma StripFixed(s: string, p: char -> bool)
    ensures Strip(s, p) == s <==> Bare(s, p)
  {
    var a, b := StripSplits(s, p);
    if Bare(s, p) {
      assert "" + s + "" == s;
      StripIs("", s, "", p);
    }
  }

  // ---- quotes ----

  predicate Double(c: char) { c == '"' }

  predicate Single(c: char) { c == '\'' }

  predicate Quote(c: char) { Double(c) || Single(c) }

  /** The validator takes off double quotes, then single ones. */
  function ValidatorUnquote(s: string): string {
    Strip(Strip(s, Double), Single)
  }

  /** The harness takes off any mixture. */
  function HarnessUnquote(s: string): string {
    Strip(s, Quote)
  }

  /** The two agree exactly when the validator leaves no double quote at an end, as on '"x"' it does. */
  lemma UnquoteAgreesIff(s: string)
    ensures ValidatorUnquote(s) == HarnessUnquote(s) <==> Bare(ValidatorUnquote(s), Double)
  {
    var t := Strip(s, Double);
    StripAbsorbs(s, Double, Quote);
    StripAbsorbs(t, Single, Quote);
    StripFixed(ValidatorUnquote(s), Quote);
    var a, b := StripSplits(t, Single);
  }

  // ---- lines ----

  function Lines(text: string, ends: char -> bool): (ls: seq<string>)
    ensures |ls| > 0
  {
    if text == "" then [""]
    else
      var rest := Lines(text[1..], ends);
      if ends(text[0]) then [""] + rest else [[text[0]] + rest[0]] + rest[1..]
  }

  predicate Newline(c: char) { c == '\n' }

  function Count(text: string, ends: char -> bool): nat {
    if text == "" then 0 else (if ends(text[0]) then 1 else 0) + Count(text[1..], ends)
  }

  lemma {:induction false} LineCount(text: string, ends: char -> bool)
    ensures |Lines(text, ends)| == 1 + Count(text, ends)
  {
    if text != "" {
      LineCount(text[1..], ends);
    }
  }

  predicate OnlyNewlines(text: string) {
    forall i :: 0 <= i < |text| && Break(text[i]) ==> Newline(text[i])
  }

  lemma {:induction false} CountsDiffer(text: string)
    ensures Count(text, Newline) <= Count(text, Break)
    ensures Count(text, Newline) == Count(text, Break) ==> OnlyNewlines(text)
  {
    if text != "" {
      CountsDiffer(text[1..]);
      assert forall i :: 0 < i < |text| ==> text[i] == text[1..][i - 1];
    }
  }

  /** Both readers cut the text into the same lines exactly when newlines are its only line breaks. */
  lemma {:induction false} SameLinesIff(text: string)
    ensures Lines(text, Newline) == Lines(text, Break) <==> OnlyNewlines(text)
  {
    LineCount(text, Newline);
    LineCount(text, Break);
    CountsDiffer(text);
    if OnlyNewlines(text) {
      SameLines(text);
    }
  }

  lemma {:induction false} SameLines(text: string)
    requires OnlyNewlines(text)
    ensures Lines(text, Newline) == Lines(text, Break)
  {
    if text != "" {
      assert forall i :: 0 <= i < |text[1..]| ==> text[1..][i] == text[i + 1];
      SameLines(text[1..]);
    }
  }

  /** The lines that are not blank; no reader looks at the others. */
  function Written(ls: seq<string>): seq<string> {
    if ls == [] then [] else (if Trim(ls[0]) == "" then [] else [ls[0]]) + Written(ls[1..])
  }

  function ValidatorLines(text: string): seq<string> {
    Written(Lines(text, Newline))
  }

  function HarnessLines(text: string): seq<string> {
    Written(Lines(text, Break))
  }

  // ---- what a line looks like ----

  datatype Shape =
    | Full(key: string, rest: string)   // a key, a colon, and what follows, possibly nothing
    | Lone(key: string)                 // a key and nothing else
    | Colon(rest: string)               // a colon with no key before it
    | Other

  function ColonAt(line: string): (n: nat)
    requires ':' in line
    ensures n < |line| && line[n] == ':' && ':' !in line[..n]
  {
    if line[0] == ':' then 0
    else
      var n := 1 + ColonAt(line[1..]);
      assert line[..n] == [line[0]] + line[1..][..n - 1];
      n
  }

  function ShapeOf(line: string): Shape {
    if ':' in line then
      var n := ColonAt(line);
      var key, rest := Trim(line[..n]), Trim(line[n + 1..]);
      if key == "" then Colon(rest) else if IsKey(key) then Full(Lower(key), rest) else Other
    else if IsKey(Trim(line)) then Lone(Lower(Trim(line)))
    else Other
  }

  predicate IsFull(ls: seq<string>, i: nat) { i < |ls| && ShapeOf(ls[i]).Full? }

  predicate IsLone(ls: seq<string>, i: nat) { i < |ls| && ShapeOf(ls[i]).Lone? }

  predicate IsColon(ls: seq<string>, i: nat) { i < |ls| && ShapeOf(ls[i]).Colon? }

  predicate EmptyFull(ls: seq<string>, i: nat) { IsFull(ls, i) && ShapeOf(ls[i]).rest == "" }

  predicate EmptyColon(ls: seq<string>, i: nat) { IsColon(ls, i) && ShapeOf(ls[i]).rest == "" }

  // ---- the validator: one match after another ----

  datatype Match = Match(key: string, value: string, next: nat)

  function ValueFrom(ls: seq<string>, i: nat): string {
    if i < |ls| then Trim(ls[i]) else ""
  }

  /** The expression tried at line i: after an empty colon its blanks run on into the next line. */
  function MatchAt(ls: seq<string>, i: nat): (m: Option<Match>)
    requires i < |ls|
    ensures m.Some? ==> i < m.value.next <= |ls|
  {
    match ShapeOf(ls[i])
    case Full(key, rest) =>
      if rest != "" then Some(Match(key, rest, i + 1))
      else Some(Match(key, ValueFrom(ls, i + 1), if i + 1 < |ls| then i + 2 else i + 1))
    case Lone(key) =>
      if !IsColon(ls, i + 1) then None
      else if ShapeOf(ls[i + 1]).rest != "" then Some(Match(key, ShapeOf(ls[i + 1]).rest, i + 2))
      else Some(Match(key, ValueFrom(ls, i + 2), if i + 2 < |ls| then i + 3 else i + 2))
    case _ => None
  }

  /** Line i lies inside a match that began above it; told from the lines right above alone. */
  predicate Hidden(ls: seq<string>, i: nat)
    decreases i
  {
    || (i >= 1 && (EmptyFull(ls, i - 1) || (IsLone(ls, i - 1) && IsColon(ls, i))) && !Hidden(ls, i - 1))
    || (i >= 2 && IsLone(ls, i - 2) && EmptyColon(ls, i - 1) && !Hidden(ls, i - 2))
  }

  /** Below n fields without a value, under a line that swallows nothing, a line is hidden exactly when n is odd. */
  lemma {:induction false} HiddenByParity(ls: seq<string>, i: nat, n: nat)
    requires n <= i < |ls| && IsFull(ls, i) && forall k :: i - n <= k < i ==> EmptyFull(ls, k)
    requires i > n ==> !EmptyFull(ls, i - n - 1) && !EmptyColon(ls, i - n - 1)
    ensures Hidden(ls, i) <==> n % 2 == 1
    decreases n
  {
    hide ShapeOf;
    if n > 0 {
      assert EmptyFull(ls, i - 1);
      HiddenByParity(ls, i - 1, n - 1);
    }
  }

  /** Where the search stands after trying line i. */
  lemma SearchMoves(ls: seq<string>, i: nat)
    requires i < |ls| && !Hidden(ls, i)
    ensures MatchAt(ls, i).Some? && MatchAt(ls, i).value.next < |ls| ==> !Hidden(ls, MatchAt(ls, i).value.next)
    ensures MatchAt(ls, i).Some? ==> forall k :: i < k < MatchAt(ls, i).value.next ==> Hidden(ls, k)
    ensures MatchAt(ls, i).None? ==> !Hidden(ls, i + 1)
  {
    hide ShapeOf;
  }

  predicate PlainAt(ls: seq<string>, i: nat, name: string) {
    IsFull(ls, i) && ShapeOf(ls[i]).key == name
  }

  /** The name alone on its line, the colon on the next: a field for the validator only. */
  predicate SpreadAt(ls: seq<string>, i: nat, name: string) {
    IsLone(ls, i) && ShapeOf(ls[i]).key == name && IsColon(ls, i + 1)
  }

  predicate SeenAt(ls: seq<string>, i: nat, name: string) {
    !Hidden(ls, i) && (PlainAt(ls, i, name) || SpreadAt(ls, i, name))
  }

  function FirstSeen(ls: seq<string>, name: string, i: nat): (r: Option<nat>)
    requires i <= |ls|
    decreases |ls| - i
  {
    if i == |ls| then None else if SeenAt(ls, i, name) then Some(i) else FirstSeen(ls, name, i + 1)
  }

  function FirstPlain(ls: seq<string>, name: string, i: nat): (r: Option<nat>)
    requires i <= |ls|
    decreases |ls| - i
  {
    if i == |ls| then None else if PlainAt(ls, i, name) then Some(i) else FirstPlain(ls, name, i + 1)
  }

  lemma {:induction false} FirstSeenIs(ls: seq<string>, name: string, i: nat)
    requires i <= |ls|
    ensures var r := FirstSeen(ls, name, i);
      && (r.Some? ==> i <= r.value < |ls| && SeenAt(ls, r.value, name))
      && (forall k :: i <= k < (if r.Some? then r.value else |ls|) ==> !SeenAt(ls, k, name))
    decreases |ls| - i
  {
    hide SeenAt;
    if i < |ls| && !SeenAt(ls, i, name) {
      FirstSeenIs(ls, name, i + 1);
    }
  }

  lemma {:induction false} FirstPlainIs(ls: seq<string>, name: string, i: nat)
    requires i <= |ls|
    ensures var r := FirstPlain(ls, name, i);
      && (r.Some? ==> i <= r.value < |ls| && PlainAt(ls, r.value, name))
      && (forall k :: i <= k < (if r.Some? then r.value else |ls|) ==> !PlainAt(ls, k, name))
    decreases |ls| - i
  {
    hide PlainAt;
    if i < |ls| && !PlainAt(ls, i, name) {
      FirstPlainIs(ls, name, i + 1);
    }
  }

  function ValidatorLine(ls: seq<string>, name: string): Option<nat> {
    FirstSeen(ls, name, 0)
  }

  function HarnessLine(ls: seq<string>, name: string): Option<nat> {
    FirstPlain(ls, name, 0)
  }

  function ValidatorField(ls: seq<string>, name: string): Option<string> {
    var at := ValidatorLine(ls, name);
    if at.Some? && at.value < |ls| && MatchAt(ls, at.value).Some? then
      Some(ValidatorUnquote(MatchAt(ls, at.value).value.value))
    else None
  }

  function HarnessField(ls: seq<string>, name: string): Option<string> {
    var at := HarnessLine(ls, name);
    if at.Some? && IsFull(ls, at.value) then Some(HarnessUnquote(ShapeOf(ls[at.value]).rest)) else None
  }

  /** Goes through the matches and returns the first with that name. */
  method ReadByMatches(ls: seq<string>, name: string) returns (r: Option<string>)
    ensures r == ValidatorField(ls, name)
  {
    hide Hidden, ShapeOf;
    NothingAbove(ls);
    FirstSeenIs(ls, name, 0);
    var i := 0;
    while i < |ls|
      invariant 0 <= i <= |ls| && (i < |ls| ==> !Hidden(ls, i))
      invariant forall k :: 0 <= k < i ==> !SeenAt(ls, k, name)
      decreases |ls| - i
    {
      SearchMoves(ls, i);
      var m := MatchAt(ls, i);
      assert SeenAt(ls, i, name) <==> m.Some? && m.value.key == name;
      if m.None? {
        i := i + 1;
      } else {
        if m.value.key == name {
          return Some(ValidatorUnquote(m.value.value));
        }
        i := m.value.next;
      }
    }
    return None;
  }

  lemma NothingAbove(ls: seq<string>)
    ensures !Hidden(ls, 0)
  {
  }

  // ---- the harness: line by line ----

  /** The field names both sides ask for are lower-case keys. */
  predicate IsName(name: string) {
    IsKey(name) && forall i :: 0 <= i < |name| ==> !('A' <= name[i] <= 'Z')
  }

  lemma NameIsLower(name: string)
    requires IsName(name)
    ensures Lower(name) == name
  {
  }

  predicate Comment(line: string) {
    var s := StripLeft(line, Space);
    s != "" && s[0] == '#'
  }

  lemma LowerKeepsKey(s: string)
    ensures IsKey(s) <==> IsKey(Lower(s))
  {
    if IsKey(Lower(s)) {
      forall i | 0 <= i < |s| ensures KeyChar(s[i]) {
        assert KeyChar(Lower(s)[i]);
      }
    }
  }

  lemma CommentHasNoKey(line: string)
    requires Comment(line) && ':' in line
    ensures !IsKey(Trim(line[..ColonAt(line)]))
  {
    var n := ColonAt(line);
    var blank := StripLeftSplits(line, Space);
    var a, b := StripSplits(line[..n], Space);
    assert line[|blank|] == '#' && !Space(line[n]);
    assert line[..n][|blank|] == '#';
    assert '#' in a + Trim(line[..n]) + b;
  }

  /** Returns the value of the first line that splits into that name and something. */
  method ReadByLines(ls: seq<string>, name: string) returns (r: Option<string>)
    requires IsName(name)
    ensures r == HarnessField(ls, name)
  {
    hide Strip, IsKey, Lower, Comment;
    NameIsLower(name);
    LowerKeepsKey(name);
    FirstPlainIs(ls, name, 0);
    for i := 0 to |ls|
      invariant forall k :: 0 <= k < i ==> !PlainAt(ls, k, name)
    {
      var line := ls[i];
      if ':' in line && !Comment(line) {
        var n := ColonAt(line);
        var key, value := Trim(line[..n]), Trim(line[n + 1..]);
        LowerKeepsKey(key);
        EmptyKey(key);
        if Lower(key) == name {
          assert PlainAt(ls, i, name);
          return Some(HarnessUnquote(value));
        }
      } else if ':' in line {
        CommentHasNoKey(line);
      }
    }
    return None;
  }

  lemma EmptyKey(key: string)
    ensures IsKey(key) ==> key != ""
  {
  }

  // ---- when the two agree ----

  /** Both readers find the name, if at all, on the same line. */
  predicate OneLine(ls: seq<string>, name: string) {
    var at := HarnessLine(ls, name);
    && (at.Some? ==> !Hidden(ls, at.value))
    && forall i :: 0 <= i < (if at.Some? then at.value else |ls|) && SpreadAt(ls, i, name) ==> Hidden(ls, i)
  }

  /** Both take the same value from line i: it is there, and not quoted twice over. */
  predicate OneValue(ls: seq<string>, i: nat)
    requires IsFull(ls, i)
  {
    if EmptyFull(ls, i) then ValidatorUnquote(ValueFrom(ls, i + 1)) == ""
    else Bare(ValidatorUnquote(ShapeOf(ls[i]).rest), Double)
  }

  /** What an author can check, line by line, of one field. */
  predicate Clear(ls: seq<string>, name: string) {
    OneLine(ls, name) && var at := HarnessLine(ls, name); at.Some? && IsFull(ls, at.value) ==> OneValue(ls, at.value)
  }

  lemma SameLineIff(ls: seq<string>, name: string)
    ensures ValidatorLine(ls, name) == HarnessLine(ls, name) <==> OneLine(ls, name)
  {
    hide Hidden, ShapeOf;
    var v, h := ValidatorLine(ls, name), HarnessLine(ls, name);
    FirstSeenIs(ls, name, 0);
    FirstPlainIs(ls, name, 0);
    if OneLine(ls, name) {
      assert h.Some? ==> SeenAt(ls, h.value, name);
      assert v.Some? ==> !SpreadAt(ls, v.value, name);
    }
    if v == h {
      forall i | 0 <= i < (if h.Some? then h.value else |ls|) && SpreadAt(ls, i, name) ensures Hidden(ls, i) {
        assert !SeenAt(ls, i, name);
      }
    }
  }

  lemma SameValueIff(ls: seq<string>, i: nat)
    requires IsFull(ls, i)
    ensures ValidatorUnquote(MatchAt(ls, i).value.value) == HarnessUnquote(ShapeOf(ls[i]).rest) <==> OneValue(ls, i)
  {
    UnquoteAgreesIff(ShapeOf(ls[i]).rest);
    assert HarnessUnquote("") == "";
  }

  /** The readers take a field from the same line, with the same value, exactly when it is clear. */
  lemma ReadAlikeIff(ls: seq<string>, name: string)
    ensures ValidatorLine(ls, name) == HarnessLine(ls, name) && ValidatorField(ls, name) == HarnessField(ls, name)
            <==> Clear(ls, name)
  {
    hide Hidden, ShapeOf, ValidatorUnquote, HarnessUnquote, OneValue, OneLine;
    SameLineIff(ls, name);
    FirstPlainIs(ls, name, 0);
    var h := HarnessLine(ls, name);
    if h.Some? {
      assert PlainAt(ls, h.value, name);
      SameValueIff(ls, h.value);
    }
  }

  // ---- fields written out ----

  /** Text that no reader strips anything from. */
  predicate Solid(value: string) {
    value != "" && Bare(value, Space) && Bare(value, Quote)
  }

  function FieldText(key: string, value: string): string {
    if value == "" then key + ":" else key + ": " + value
  }

  lemma KeyIsTrimmed(key: string)
    requires IsKey(key)
    ensures Trim(key) == key && ':' !in key
  {
    StripFixed(key, Space);
  }

  lemma FirstColon(line: string, n: nat)
    requires n < |line| && line[n] == ':' && ':' !in line[..n]
    ensures ColonAt(line) == n
  {
    var m := ColonAt(line);
    assert forall k :: 0 <= k < n ==> line[k] in line[..n];
    assert forall k :: 0 <= k < m ==> line[k] in line[..m];
  }

  lemma FieldShape(key: string, value: string)
    requires IsName(key) && (value == "" || Solid(value))
    ensures ShapeOf(FieldText(key, value)) == Full(key, value)
  {
    hide Strip, Space;
    var line := FieldText(key, value);
    KeyIsTrimmed(key);
    NameIsLower(key);
    assert line[|key|] == ':' && line[..|key|] == key;
    FirstColon(line, |key|);
    if value == "" {
      assert line[|key| + 1..] == "";
      StripFixed("", Space);
    } else {
      assert line[|key| + 1..] == " " + value + "";
      BlankIsSpace();
      StripIs(" ", value, "", Space);
    }
  }

  lemma BlankIsSpace()
    ensures All(" ", Space) && All("", Space)
  {
  }

  lemma SolidIsUnquoted(value: string)
    requires Solid(value)
    ensures ValidatorUnquote(value) == value == HarnessUnquote(value)
  {
    StripFixed(value, Quote);
    StripFixed(value, Double);
    StripFixed(value, Single);
  }

  lemma FoundField(ls: seq<string>, name: string, i: nat, value: string)
    requires i < |ls| && ShapeOf(ls[i]) == Full(name, value) && Solid(value)
    requires forall k :: 0 <= k < i ==> !PlainAt(ls, k, name)
    ensures HarnessField(ls, name) == Some(value)
    ensures !Hidden(ls, i) && (forall k :: 0 <= k < i ==> !SpreadAt(ls, k, name)) ==>
      ValidatorField(ls, name) == Some(value)
  {
    hide ShapeOf, Hidden, ValidatorUnquote, HarnessUnquote;
    SolidIsUnquoted(value);
    FirstSeenIs(ls, name, 0);
    FirstPlainIs(ls, name, 0);
    assert PlainAt(ls, i, name);
    assert FirstPlain(ls, name, 0) == Some(i);
    if !Hidden(ls, i) && (forall k :: 0 <= k < i ==> !SpreadAt(ls, k, name)) {
      assert SeenAt(ls, i, name);
      assert FirstSeen(ls, name, 0) == Some(i);
    }
  }

  lemma UnseenField(ls: seq<string>, name: string)
    requires forall k :: 0 <= k < |ls| ==> !SeenAt(ls, k, name)
    ensures ValidatorField(ls, name) == None
    ensures (forall k :: 0 <= k < |ls| ==> !PlainAt(ls, k, name)) ==> HarnessField(ls, name) == None
  {
    hide SeenAt, PlainAt;
    FirstSeenIs(ls, name, 0);
    FirstPlainIs(ls, name, 0);
  }
}
