/**
 * `ConvertRecord`: the line-oriented key/value extractor of the WHOIS client.
 *
 * The Go code finds every match of the multi-line pattern
 * `^\s?([\w\s\/]*)\:(.*)$` and keeps the pairs that pass a small filter.
 * `Scan` is that search written as a scanner over the unread suffix of the
 * text, which always begins at a line start:
 *   - the key group is the longest run of key characters at the line start
 *     (`\s` includes `\n`, so the run may cross colon-free lines) and the
 *     match exists only when the character ending the run is `:`;
 *   - an optional single leading `\s` character is outside the group;
 *   - the value group is the rest of the line up to, not including, `\n`;
 *   - the next match is sought from the start of the following line.
 */
module RecordParser {
  import opened Wrappers
  import opened Strings

  /** `\s` of Go's regular expressions: tab, newline, form feed, carriage return, space. */
  predicate IsPatternSpace(c: char) {
    c == '\t' || c == '\n' || c == '\U{C}' || c == '\r' || c == ' '
  }

  /** `\w`: ASCII letters, digits and underscore. */
  predicate IsWordChar(c: char) {
    ('a' <= c <= 'z') || ('A' <= c <= 'Z') || ('0' <= c <= '9') || c == '_'
  }

  /** The character class `[\w\s\/]` of the key group. */
  predicate IsKeyChar(c: char) {
    IsWordChar(c) || IsPatternSpace(c) || c == '/'
  }

  /** Length of the longest prefix of `s` made of key characters. */
  function KeyRun(s: string): (n: nat)
    ensures n <= |s|
  {
    if s != [] && IsKeyChar(s[0]) then 1 + KeyRun(s[1..]) else 0
  }

  /** The run is made of key characters and is the longest such prefix. */
  lemma {:induction false} KeyRunChars(s: string)
    ensures forall ch :: ch in s[..KeyRun(s)] ==> IsKeyChar(ch)
    ensures KeyRun(s) < |s| ==> !IsKeyChar(s[KeyRun(s)])
  {
    if s != [] && IsKeyChar(s[0]) {
      KeyRunChars(s[1..]);
      assert s[..KeyRun(s)] == [s[0]] + s[1..][..KeyRun(s[1..])];
    }
  }

  /** The two groups of one match, before any trimming. */
  datatype Capture = Capture(key: string, value: string)

  /** What the pattern guarantees of a match: no `:` in the key, no `\n` in the value. */
  predicate PatternCapture(c: Capture) {
    ':' !in c.key && '\n' !in c.value
  }

  /** The key group of a run of key characters: a leading `\s` goes to `\s?`. */
  function KeyGroup(run: string): (g: string)
    ensures forall ch :: ch in g ==> ch in run
  {
    if run != [] && IsPatternSpace(run[0]) then run[1..] else run
  }

  /** What the scanner does at one line start: the match found there, if any, and where it resumes. */
  datatype Step = Step(cap: Option<Capture>, next: string)

  /**
   * One step at the start of a line: the key run is a match when `:` ends
   * it, and the value is the rest of that line; either way the scan resumes
   * at the start of the following line, or stops when there is none.
   */
  function StepAt(s: string): (st: Step)
    requires s != []
    ensures |st.next| < |s|
  {
    var e := KeyRun(s);
    if e < |s| && s[e] == ':' then
      var rest := s[e + 1..];
      var n := LineLength(rest);
      Step(Some(Capture(KeyGroup(s[..e]), rest[..n])), if n < |rest| then rest[n + 1..] else [])
    else
      var n := LineLength(s);
      Step(None, if n < |s| then s[n + 1..] else [])
  }

  /**
   * The matches of the record pattern in `s`, in order, where `s` starts at
   * the beginning of a line.
   */
  function Scan(s: string): seq<Capture>
    decreases |s|
  {
    if s == [] then []
    else
      var st := StepAt(s);
      (if st.cap.Some? then [st.cap.value] else []) + Scan(st.next)
  }

  /** A match found by one step has a key without `:` and a value without `\n`. */
  lemma StepCapture(s: string)
    requires s != []
    ensures StepAt(s).cap.Some? ==> PatternCapture(StepAt(s).cap.value)
  {
    var e := KeyRun(s);
    if e < |s| && s[e] == ':' {
      KeyRunChars(s);
      LineLengthStops(s[e + 1..]);
    }
  }

  /** Every match has a key without `:` and a value without `\n`. */
  lemma {:induction false} ScanCaptures(s: string)
    ensures forall i :: 0 <= i < |Scan(s)| ==> PatternCapture(Scan(s)[i])
    decreases |s|
  {
    if s != [] {
      StepCapture(s);
      ScanCaptures(StepAt(s).next);
    }
  }

  /** A run of key characters ended by a character outside the class. */
  lemma {:induction false} KeyRunOf(k: string, t: string)
    requires forall ch :: ch in k ==> IsKeyChar(ch)
    requires t != [] && !IsKeyChar(t[0])
    ensures KeyRun(k + t) == |k|
  {
    if k != [] {
      assert (k + t)[1..] == k[1..] + t;
      KeyRunOf(k[1..], t);
    }
  }

  /**
   * A line `k:v` whose key part is made of key characters is one match;
   * the scan resumes after the newline ending it, or stops at the end.
   */
  lemma MatchStep(k: string, v: string, t: string)
    requires forall ch :: ch in k ==> IsKeyChar(ch)
    requires '\n' !in v
    requires t == [] || t[0] == '\n'
    ensures StepAt(k + ":" + v + t) == Step(Some(Capture(KeyGroup(k), v)), if t == [] then [] else t[1..])
  {
    assert k + ":" + v + t == k + ":" + (v + t);
    KeyRunOfMatch(k, v + t);
    LineLengthOf(v, t);
    assert (v + t)[..|v|] == v;
    assert t != [] ==> (v + t)[|v| + 1..] == t[1..];
  }

  /** The key run of `k:r` is `k` when `k` is made of key characters. */
  lemma KeyRunOfMatch(k: string, r: string)
    requires forall ch :: ch in k ==> IsKeyChar(ch)
    ensures var s := k + ":" + r;
            KeyRun(s) == |k| && s[|k|] == ':' && s[..|k|] == k && s[|k| + 1..] == r
  {
    var s := k + ":" + r;
    assert s == k + (":" + r);
    KeyRunOf(k, ":" + r);
    assert s[..|k|] == k;
  }

  /**
   * A line `k:v` whose key part is made of key characters is one match, and
   * scanning resumes on the next line. Since `\n` is a key character, `k` may
   * span several colon-free lines.
   */
  lemma ScanMatchLine(k: string, v: string, rest: string)
    requires forall ch :: ch in k ==> IsKeyChar(ch)
    requires '\n' !in v
    ensures Scan(k + ":" + v + "\n" + rest) == [Capture(KeyGroup(k), v)] + Scan(rest)
  {
    assert k + ":" + v + "\n" + rest == k + ":" + v + ("\n" + rest);
    MatchStep(k, v, "\n" + rest);
    assert ("\n" + rest)[1..] == rest;
  }

  /** The same for a last line with no newline after it. */
  lemma ScanMatchLastLine(k: string, v: string)
    requires forall ch :: ch in k ==> IsKeyChar(ch)
    requires '\n' !in v
    ensures Scan(k + ":" + v) == [Capture(KeyGroup(k), v)]
  {
    assert k + ":" + v + [] == k + ":" + v;
    MatchStep(k, v, []);
  }

  /** The key run of a line is not changed by what follows the line. */
  lemma KeyRunOfLine(l: string, rest: string)
    requires '\n' !in l
    requires KeyRun(l) < |l|
    ensures KeyRun(l + "\n" + rest) == KeyRun(l)
    ensures (l + "\n" + rest)[KeyRun(l)] == l[KeyRun(l)]
  {
    var n := KeyRun(l);
    var tail := l[n..] + "\n" + rest;
    assert l + "\n" + rest == l[..n] + tail;
    KeyRunChars(l);
    KeyRunOf(l[..n], tail);
    assert (l + "\n" + rest)[n] == l[n];
  }

  /** A line whose key run ends at anything but `:` is no match. */
  lemma SkipStep(l: string, rest: string)
    requires '\n' !in l
    requires KeyRun(l) < |l| && l[KeyRun(l)] != ':'
    ensures StepAt(l + "\n" + rest) == Step(None, rest)
  {
    KeyRunOfLine(l, rest);
    LineOf(l, rest);
  }

  /** The first line of `l + "\n" + rest` is `l`, and the next one starts `rest`. */
  lemma LineOf(l: string, rest: string)
    requires '\n' !in l
    ensures var s := l + "\n" + rest;
            LineLength(s) == |l| && s[..|l|] == l && s[|l| + 1..] == rest
  {
    var s := l + "\n" + rest;
    assert s == l + ("\n" + rest);
    LineLengthOf(l, "\n" + rest);
    assert s[|l| + 1..] == rest;
  }

  /**
   * A line whose run of key characters from its start ends at anything but
   * `:` is no match; scanning resumes on the next line.
   */
  lemma ScanSkipLine(l: string, rest: string)
    requires '\n' !in l
    requires KeyRun(l) < |l| && l[KeyRun(l)] != ':'
    ensures Scan(l + "\n" + rest) == Scan(rest)
  {
    SkipStep(l, rest);
  }

  /** Text without a `:` holds no match. */
  lemma {:induction false} ScanNoColon(s: string)
    requires ':' !in s
    ensures Scan(s) == []
    decreases |s|
  {
    if s != [] {
      var st := StepAt(s);
      assert st.cap == None;
      assert ':' !in st.next by {
        var n := LineLength(s);
        if n < |s| {
          forall ch | ch in s[n + 1..] ensures ch in s { }
        }
      }
      ScanNoColon(st.next);
    }
  }

  /** The normalised key: newlines removed, colons and then spaces trimmed. */
  function NormalizeKey(raw: string): (key: string)
    ensures Trimmed(key)
  {
    TrimSpace(Trim(Remove(raw, '\n'), {':'}))
  }

  /** The normalised key keeps only characters of the raw key, and no `\n`. */
  lemma NormalizeKeyChars(raw: string)
    ensures forall ch :: ch in NormalizeKey(raw) ==> ch in raw && ch != '\n'
  {
    var r := Remove(raw, '\n');
    var b := Trim(r, {':'});
    RemoveChars(raw, '\n');
    TrimSlice(r, {':'});
    TrimSlice(b, Spaces);
    assert forall ch :: ch in b ==> ch in r;
  }

  /** The normalised value: newlines removed, spaces trimmed. */
  function NormalizeValue(raw: string): (value: string)
    ensures Trimmed(value)
  {
    TrimSpace(Remove(raw, '\n'))
  }

  /** The normalised value holds no `\n`. */
  lemma NormalizeValueChars(raw: string)
    ensures '\n' !in NormalizeValue(raw)
  {
    var r := Remove(raw, '\n');
    RemoveChars(raw, '\n');
    TrimSlice(r, Spaces);
  }

  /** A key already trimmed and free of `\n` and `:` is kept as it is. */
  lemma NormalizeKeyUnchanged(k: string)
    requires Trimmed(k) && '\n' !in k && ':' !in k
    ensures NormalizeKey(k) == k
  {
    RemoveChars(k, '\n');
    TrimKeeps(k, {':'});
    TrimKeeps(k, Spaces);
  }

  /** A value of one space before trimmed, newline-free text is that text. */
  lemma NormalizeValueAfterSpace(w: string)
    requires Trimmed(w) && '\n' !in w
    ensures NormalizeValue(" " + w) == w
  {
    assert " " + w == [' '] + w;
    assert '\n' !in " " + w;
    RemoveChars(" " + w, '\n');
    TrimOneLeading(' ', w, Spaces);
  }

  /** The filter of whois.go:22. */
  predicate Accepted(key: string, value: string) {
    |key| > 2 && CountChar(key, ' ') < 5 && |value| > 0
  }

  /** What every entry of a parsed record satisfies. */
  predicate WellFormedField(key: string, value: string) {
    Accepted(key, value)
    && Trimmed(key) && Trimmed(value)
    && '\n' !in key && ':' !in key && '\n' !in value
  }

  /** A key/value pair the parser keeps. */
  datatype Field = Field(key: string, value: string)

  /**
   * What one match contributes: its normalised key and value when they pass
   * the filter, nothing otherwise.
   */
  function Entry(c: Capture): Option<Field> {
    var key := NormalizeKey(c.key);
    var value := NormalizeValue(c.value);
    if Accepted(key, value) then Some(Field(key, value)) else None
  }

  /** An entry drawn from a match of the pattern is well formed. */
  lemma EntryWellFormed(c: Capture)
    requires PatternCapture(c)
    ensures Entry(c).Some? ==> WellFormedField(Entry(c).value.key, Entry(c).value.value)
  {
    NormalizeKeyChars(c.key);
    NormalizeValueChars(c.value);
  }

  /** The entries of a sequence of matches, one per match. */
  function Entries(caps: seq<Capture>): (es: seq<Option<Field>>)
    ensures |es| == |caps|
  {
    if caps == [] then [] else [Entry(caps[0])] + Entries(caps[1..])
  }

  /** The entry at position `i` is that of the match at position `i`. */
  lemma {:induction false} EntriesAt(caps: seq<Capture>, i: nat)
    requires i < |caps|
    ensures Entries(caps)[i] == Entry(caps[i])
  {
    if i > 0 {
      EntriesAt(caps[1..], i - 1);
    }
  }

  /** `res[key] = val` for a kept entry. */
  function Put(m: map<string, string>, e: Option<Field>): map<string, string> {
    if e.Some? then m[e.value.key := e.value.value] else m
  }

  /** The map the loop has built after its first `n` entries. */
  function Fold(es: seq<Option<Field>>, n: nat): map<string, string>
    requires n <= |es|
  {
    if n == 0 then map[] else Put(Fold(es, n - 1), es[n - 1])
  }

  /** Every entry of `m` is well formed. */
  predicate WellFormedRecord(m: map<string, string>) {
    forall k :: k in m ==> WellFormedField(k, m[k])
  }

  /** The `i`-th entry stores `key`. */
  predicate StoresAt(es: seq<Option<Field>>, i: int, key: string)
    requires 0 <= i < |es|
  {
    es[i].Some? && es[i].value.key == key
  }

  /**
   * Overwriting in match order: `key` is in the map exactly when some entry
   * stores it, and its value is that of the last such entry.
   */
  lemma {:induction false} FoldLastWins(es: seq<Option<Field>>, n: nat, key: string)
    requires n <= |es|
    ensures key in Fold(es, n) <==> exists i :: 0 <= i < n && StoresAt(es, i, key)
    ensures key in Fold(es, n) ==>
              exists i :: 0 <= i < n && StoresAt(es, i, key) && Fold(es, n)[key] == es[i].value.value
                          && forall j :: i < j < n ==> !StoresAt(es, j, key)
  {
    if n > 0 {
      FoldLastWins(es, n - 1, key);
      if StoresAt(es, n - 1, key) {
        assert Fold(es, n)[key] == es[n - 1].value.value;
      } else if key in Fold(es, n - 1) {
        var i :| 0 <= i < n - 1 && StoresAt(es, i, key) && Fold(es, n - 1)[key] == es[i].value.value
                 && forall j :: i < j < n - 1 ==> !StoresAt(es, j, key);
        assert Fold(es, n)[key] == es[i].value.value;
      }
    }
  }

  /** Keeping only well-formed entries keeps the record well formed. */
  lemma {:induction false} FoldWellFormed(es: seq<Option<Field>>, n: nat)
    requires n <= |es|
    requires forall i :: 0 <= i < |es| && es[i].Some? ==> WellFormedField(es[i].value.key, es[i].value.value)
    ensures WellFormedRecord(Fold(es, n))
  {
    if n > 0 {
      FoldWellFormed(es, n - 1);
    }
  }

  /** The record built from the matches `caps`, in match order. */
  function Record(caps: seq<Capture>): map<string, string> {
    var es := Entries(caps);
    Fold(es, |es|)
  }

  /** The record `ConvertRecord` returns for `text`. */
  function Fields(text: string): map<string, string> {
    Record(Scan(text))
  }

  /**
   * One more match, normalised to `key` and `value`, overwrites `key` when
   * the filter accepts it and leaves the record alone otherwise.
   */
  lemma FoldNext(caps: seq<Capture>, i: nat, key: string, value: string)
    requires i < |caps|
    requires key == NormalizeKey(caps[i].key) && value == NormalizeValue(caps[i].value)
    ensures var es := Entries(caps);
            Fold(es, i + 1) == if Accepted(key, value) then Fold(es, i)[key := value] else Fold(es, i)
  {
    EntriesAt(caps, i);
  }

  /** Every entry of every parsed record is well formed. */
  lemma FieldsWellFormed(text: string)
    ensures WellFormedRecord(Fields(text))
  {
    var caps := Scan(text);
    var es := Entries(caps);
    ScanCaptures(text);
    forall i | 0 <= i < |es| && es[i].Some?
      ensures WellFormedField(es[i].value.key, es[i].value.value)
    {
      EntriesAt(caps, i);
      EntryWellFormed(caps[i]);
    }
    FoldWellFormed(es, |es|);
  }

  /** The map keeps a key exactly when some match yields it after filtering. */
  lemma RecordKeys(caps: seq<Capture>, key: string)
    ensures key in Record(caps) <==> exists i :: 0 <= i < |Entries(caps)| && StoresAt(Entries(caps), i, key)
  {
    var es := Entries(caps);
    FoldLastWins(es, |es|, key);
    if key in Record(caps) {
      var i :| 0 <= i < |es| && StoresAt(es, i, key);
      assert StoresAt(Entries(caps), i, key);
      assert exists j :: 0 <= j < |Entries(caps)| && StoresAt(Entries(caps), j, key);
    } else {
      forall i | 0 <= i < |Entries(caps)|
        ensures !StoresAt(Entries(caps), i, key)
      {
        assert !StoresAt(es, i, key);
      }
    }
  }

  /** A key the map keeps has the value of the last match that yields it. */
  lemma RecordLastWins(caps: seq<Capture>, key: string)
    ensures key in Record(caps) ==>
              exists i :: 0 <= i < |Entries(caps)| && StoresAt(Entries(caps), i, key)
                          && Record(caps)[key] == Entries(caps)[i].value.value
                          && forall j :: i < j < |Entries(caps)| ==> !StoresAt(Entries(caps), j, key)
  {
    var es := Entries(caps);
    FoldLastWins(es, |es|, key);
    if key in Record(caps) {
      var i :| 0 <= i < |es| && StoresAt(es, i, key) && Fold(es, |es|)[key] == es[i].value.value
               && forall j :: i < j < |es| ==> !StoresAt(es, j, key);
      assert Record(caps)[key] == es[i].value.value;
    }
  }

  /** The record of a single entry. */
  function Single(e: Option<Field>): map<string, string> {
    Put(map[], e)
  }

  /** An entry in front of the others loses to every later entry with its key. */
  lemma {:induction false} FoldPrepend(e: Option<Field>, es: seq<Option<Field>>, n: nat)
    requires n <= |es|
    ensures Fold([e] + es, n + 1) == Single(e) + Fold(es, n)
  {
    if n > 0 {
      FoldPrepend(e, es, n - 1);
      assert ([e] + es)[n] == es[n - 1];
    }
  }

  /**
   * A line the pattern matches contributes its entry, which the lines after
   * it override.
   */
  lemma FieldsMatchLine(k: string, v: string, rest: string)
    requires forall ch :: ch in k ==> IsKeyChar(ch)
    requires '\n' !in v
    ensures Fields(k + ":" + v + "\n" + rest) == Single(Entry(Capture(KeyGroup(k), v))) + Fields(rest)
  {
    var c := Capture(KeyGroup(k), v);
    assert Scan(k + ":" + v + "\n" + rest) == [c] + Scan(rest) by {
      ScanMatchLine(k, v, rest);
    }
    RecordPrepend(c, Scan(rest));
  }

  /** A match in front loses to every later match with its key. */
  lemma RecordPrepend(c: Capture, caps: seq<Capture>)
    ensures Record([c] + caps) == Single(Entry(c)) + Record(caps)
  {
    var tail := Entries(caps);
    EntriesPrepend(c, caps);
    FoldPrepend(Entry(c), tail, |tail|);
  }

  /** A last line without `\n` that the pattern matches contributes its entry. */
  lemma FieldsMatchLastLine(k: string, v: string)
    requires forall ch :: ch in k ==> IsKeyChar(ch)
    requires '\n' !in v
    ensures Fields(k + ":" + v) == Single(Entry(Capture(KeyGroup(k), v)))
  {
    var c := Capture(KeyGroup(k), v);
    ScanMatchLastLine(k, v);
    assert Entries([c]) == [Entry(c)];
    assert Fold([Entry(c)], 1) == Put(Fold([Entry(c)], 0), Entry(c));
  }

  /**
   * The entry of a line `key: value` whose key and value need no
   * normalisation: the pair itself when the filter passes it.
   */
  lemma EntryOfPlainLine(k: string, w: string)
    requires Trimmed(k) && '\n' !in k && ':' !in k
    requires Trimmed(w) && '\n' !in w
    ensures Entry(Capture(k, " " + w)) == if Accepted(k, w) then Some(Field(k, w)) else None
  {
    NormalizeKeyUnchanged(k);
    NormalizeValueAfterSpace(w);
  }

  /** A line the pattern does not match contributes nothing. */
  lemma FieldsSkipLine(l: string, rest: string)
    requires '\n' !in l
    requires KeyRun(l) < |l| && l[KeyRun(l)] != ':'
    ensures Fields(l + "\n" + rest) == Fields(rest)
  {
    ScanSkipLine(l, rest);
  }

  /** The entries of a match in front are its entry in front. */
  lemma EntriesPrepend(c: Capture, caps: seq<Capture>)
    ensures Entries([c] + caps) == [Entry(c)] + Entries(caps)
  {
    assert ([c] + caps)[1..] == caps;
  }

  /** Text without a colon has no fields. */
  lemma FieldsNoColon(text: string)
    requires ':' !in text
    ensures Fields(text) == map[]
  {
    ScanNoColon(text);
  }
}
