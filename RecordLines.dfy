/**
 * How typical lines of a WHOIS response become fields: a `Key: value`
 * line, two such lines, a repeated key, and a colon-free line running into
 * the key of the next line.
 */
module RecordLines {
  import opened Wrappers
  import opened Strings
  import opened RecordParser

  /** A key the pattern captures whole and the normalisation leaves as it is. */
  predicate PlainKey(k: string) {
    (forall ch :: ch in k ==> IsKeyChar(ch)) && Trimmed(k) && '\n' !in k && ':' !in k
    && KeyGroup(k) == k
  }

  /** A value the normalisation leaves as it is. */
  predicate PlainValue(w: string) {
    Trimmed(w) && '\n' !in w
  }

  /**
   * `key: value` followed by more text: the pair when the filter of
   * whois.go:22 passes it, overridden by the text after it.
   */
  lemma PlainLine(k: string, w: string, rest: string)
    requires PlainKey(k) && PlainValue(w)
    ensures Fields(k + ": " + w + "\n" + rest)
            == (if Accepted(k, w) then map[k := w] else map[]) + Fields(rest)
  {
    assert k + ": " + w + "\n" + rest == k + ":" + (" " + w) + "\n" + rest;
    FieldsMatchLine(k, " " + w, rest);
    EntryOfPlainLine(k, w);
  }

  /** Two accepted lines give both fields, the second winning on a shared key. */
  lemma TwoPlainLines(k1: string, w1: string, k2: string, w2: string)
    requires PlainKey(k1) && PlainValue(w1) && Accepted(k1, w1)
    requires PlainKey(k2) && PlainValue(w2) && Accepted(k2, w2)
    ensures Fields(k1 + ": " + w1 + "\n" + k2 + ": " + w2 + "\n") == map[k1 := w1][k2 := w2]
  {
    var rest := k2 + ": " + w2 + "\n" + "";
    calc {
      Fields(k1 + ": " + w1 + "\n" + k2 + ": " + w2 + "\n");
      { assert k1 + ": " + w1 + "\n" + k2 + ": " + w2 + "\n" == k1 + ": " + w1 + "\n" + rest; }
      Fields(k1 + ": " + w1 + "\n" + rest);
      { PlainLine(k1, w1, rest); }
      map[k1 := w1] + Fields(rest);
      { PlainLine(k2, w2, ""); ScanNoColon(""); }
      map[k1 := w1] + (map[k2 := w2] + map[]);
      map[k1 := w1][k2 := w2];
    }
  }

  /** A repeated key keeps the value of its last line. */
  lemma RepeatedKey(k: string, w1: string, w2: string)
    requires PlainKey(k) && PlainValue(w1) && PlainValue(w2) && Accepted(k, w1) && Accepted(k, w2)
    ensures Fields(k + ": " + w1 + "\n" + k + ": " + w2 + "\n") == map[k := w2]
  {
    TwoPlainLines(k, w1, k, w2);
  }

  /** A newline inside a raw key makes no difference to the normalised key. */
  lemma NormalizeJoined(a: string, b: string)
    ensures NormalizeKey(a + "\n" + b) == NormalizeKey(a + b)
  {
    assert a + "\n" + b == a + ['\n'] + b;
    RemoveSkip(a, b, '\n');
  }

  /** Two matches whose keys normalise alike and whose values agree have one entry. */
  lemma SameEntry(c: Capture, d: Capture)
    requires NormalizeKey(c.key) == NormalizeKey(d.key) && c.value == d.value
    ensures Entry(c) == Entry(d)
  {
  }

  /**
   * A line of key characters without a colon runs into the key of the
   * next line, and `ConvertRecord` joins the two with the newline removed.
   */
  lemma JoinedKey(a: string, b: string, v: string, rest: string)
    requires a != [] && !IsPatternSpace(a[0])
    requires forall ch :: ch in a ==> IsKeyChar(ch)
    requires forall ch :: ch in b ==> IsKeyChar(ch)
    requires '\n' !in v
    ensures Fields(a + "\n" + b + ":" + v + "\n" + rest) == Fields(a + b + ":" + v + "\n" + rest)
  {
    var k, j := a + "\n" + b, a + b;
    assert forall ch :: ch in k ==> IsKeyChar(ch) by {
      assert forall ch :: ch in k ==> ch in a || ch == '\n' || ch in b;
    }
    assert forall ch :: ch in j ==> IsKeyChar(ch) by {
      assert forall ch :: ch in j ==> ch in a || ch in b;
    }
    assert KeyGroup(k) == k && KeyGroup(j) == j by {
      assert k[0] == a[0] && j[0] == a[0];
    }
    calc {
      Fields(k + ":" + v + "\n" + rest);
      { FieldsMatchLine(k, v, rest); }
      Single(Entry(Capture(k, v))) + Fields(rest);
      { NormalizeJoined(a, b); SameEntry(Capture(k, v), Capture(j, v)); }
      Single(Entry(Capture(j, v))) + Fields(rest);
      { FieldsMatchLine(j, v, rest); }
      Fields(j + ":" + v + "\n" + rest);
    }
  }
}
