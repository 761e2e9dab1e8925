/** The statement texts of the core and the test execute_query applies to a
    statement's text before it reports a row id:
    `query.strip().lower().startswith("insert")`. */
module QueryText {

  /** The characters Python's str.isspace() accepts, which str.strip() removes. */
  predicate IsSpace(c: char) {
    c == ' ' || ('\t' <= c <= '\r') || ('\U{1C}' <= c <= '\U{1F}')
    || c == '\U{85}' || c == '\U{A0}' || c == '\U{1680}'
    || ('\U{2000}' <= c <= '\U{200A}') || c == '\U{2028}' || c == '\U{2029}'
    || c == '\U{202F}' || c == '\U{205F}' || c == '\U{3000}'
  }

  /** str.lstrip(): the suffix that starts at the first non-space character. */
  function LStrip(s: string): (r: string)
    ensures |r| <= |s| && r == s[|s| - |r|..]
    ensures forall i :: 0 <= i < |s| - |r| ==> IsSpace(s[i])
    ensures r == [] || !IsSpace(r[0])
  {
    if s != [] && IsSpace(s[0]) then LStrip(s[1..]) else s
  }

  /** str.rstrip(): the prefix that ends at the last non-space character. */
  function RStrip(s: string): (r: string)
    ensures |r| <= |s| && r == s[..|r|]
    ensures forall i :: |r| <= i < |s| ==> IsSpace(s[i])
    ensures r == [] || !IsSpace(r[|r| - 1])
  {
    if s != [] && IsSpace(s[|s| - 1]) then RStrip(s[..|s| - 1]) else s
  }

  function Strip(s: string): string {
    RStrip(LStrip(s))
  }

  /** str.lower() on the characters that can lower to a letter of "insert". */
  function LowerChar(c: char): char {
    if 'A' <= c <= 'Z' then (c as int + 32) as char else c
  }

  function Lower(s: string): (r: string)
    ensures |r| == |s|
  {
    seq(|s|, i requires 0 <= i < |s| => LowerChar(s[i]))
  }

  /** The test of execute_query that decides whether lastrowid is returned. */
  predicate IsInsert(query: string) {
    "insert" <= Lower(Strip(query))
  }

  /** Reference reading of the same test: the text is blank up to position
      `k`, where the keyword "insert" starts in any letter case. */
  ghost predicate KeywordAt(query: string, k: nat) {
    k + 6 <= |query| &&
    (forall i :: 0 <= i < k ==> IsSpace(query[i])) &&
    Lower(query[k..k + 6]) == "insert"
  }

  lemma LowerPrefix(s: string, n: nat)
    requires n <= |s|
    ensures Lower(s)[..n] == Lower(s[..n])
  {
  }

  /** A character that lowers to a letter is not blank. */
  lemma KeywordNotSpace(w: string)
    requires |w| == 6 && Lower(w) == "insert"
    ensures forall i :: 0 <= i < 6 ==> !IsSpace(w[i])
  {
    forall i | 0 <= i < 6 ensures !IsSpace(w[i]) {
      assert LowerChar(w[i]) == "insert"[i];
    }
  }

  /** execute_query's test holds exactly when the text, after leading blanks,
      starts with "insert" in any letter case: the trailing strip never matters. */
  lemma IsInsertIffKeyword(query: string)
    ensures IsInsert(query) <==> exists k: nat :: KeywordAt(query, k)
  {
    if IsInsert(query) {
      KeywordOfInsert(query);
    }
    if j: nat :| KeywordAt(query, j) {
      InsertOfKeyword(query, j);
    }
  }

  /** The insert test's match sits right after the leading blanks. */
  lemma KeywordOfInsert(query: string)
    requires IsInsert(query)
    ensures KeywordAt(query, |query| - |LStrip(query)|)
  {
    var t := LStrip(query);
    var k := |query| - |t|;
    var r := RStrip(t);
    assert Lower(r)[..6] == "insert";
    LowerPrefix(r, 6);
    assert r[..6] == t[..6] by {
      assert r == t[..|r|];
    }
    assert t[..6] == query[k..k + 6] by {
      assert t == query[k..];
    }
  }

  /** A keyword after blanks passes the insert test. */
  lemma InsertOfKeyword(query: string, j: nat)
    requires KeywordAt(query, j)
    ensures IsInsert(query)
  {
    var t := LStrip(query);
    var k := |query| - |t|;
    var w := query[j..j + 6];
    KeywordNotSpace(w);
    assert query[j] == w[0];
    assert k == j;
    assert t[..6] == w;
    var r := RStrip(t);
    assert !IsSpace(t[5]) by {
      assert t[5] == w[5];
    }
    assert r[..6] == w;
    LowerPrefix(r, 6);
  }

  /** Leading blanks never change the outcome. */
  lemma {:induction false} LeadingBlanksIrrelevant(blanks: string, query: string)
    requires forall i :: 0 <= i < |blanks| ==> IsSpace(blanks[i])
    ensures LStrip(blanks + query) == LStrip(query)
    ensures IsInsert(blanks + query) == IsInsert(query)
    decreases |blanks|
  {
    if blanks == [] {
      assert blanks + query == query;
    } else {
      assert blanks + query == [blanks[0]] + (blanks[1..] + query);
      BlankHead(blanks[0], blanks[1..] + query);
      LeadingBlanksIrrelevant(blanks[1..], query);
    }
  }

  lemma BlankHead(c: char, s: string)
    requires IsSpace(c)
    ensures LStrip([c] + s) == LStrip(s)
  {
    assert ([c] + s)[1..] == s;
  }

  lemma UpperKeyword()
    ensures Lower("INSERT") == "insert"
  {
    var l := Lower("INSERT");
    assert l[0] == 'i' && l[1] == 'n' && l[2] == 's' && l[3] == 'e' && l[4] == 'r' && l[5] == 't';
  }

  /** A text that is the keyword in any case, then anything, is an insert. */
  lemma KeywordFirst(w: string, rest: string)
    requires |w| == 6 && Lower(w) == "insert"
    ensures IsInsert(w + rest)
  {
    assert (w + rest)[0..6] == w;
    assert KeywordAt(w + rest, 0);
    IsInsertIffKeyword(w + rest);
  }

  /** The indentation the module-level triple-quoted statements carry. */
  const Indent: string := Spaces(20)

  function Spaces(n: nat): (r: string)
    ensures |r| == n && forall i :: 0 <= i < n ==> r[i] == ' '
  {
    if n == 0 then "" else " " + Spaces(n - 1)
  }

  /** INSERT_ANNOTATION: a newline and the indentation come first. */
  const InsertAnnotationText: string :=
    ("\n" + Indent) + ("INSERT INTO annotations" + AnnotationInsertTail)

  const AnnotationInsertTail: string :=
    "(record_id, start_time, end_time, low_freq, high_freq, spp_class, class_prob, det_prob, individual, event)\n"
    + Indent + "VALUES(?, ?, ?, ?, ?, ?, ?, ?, ?, ?)"

  /** INSERT_RECORD of the current ingestion script (8 columns). */
  const InsertRecordText: string :=
    "INSERT INTO records" + ("(file_name, location_id, serial, record_time, duration, class_name, backup, record_path)\n"
    + Indent + "VALUES(?, ?, ?, ?, ?, ?, ?, ?)")

  /** INSERT_RECORD of the older ingestion script (6 columns). */
  const LegacyInsertRecordText: string :=
    "INSERT INTO records" + ("(file_name, location_id, serial, record_time, duration, class_name)\n"
    + Indent + "VALUES(?, ?, ?, ?, ?, ?)")

  /** The statement the backup scripts run after a conversion. */
  const MarkBackedUpText: string :=
    "update records" + " set backup = 'yes', backup_path = ? where file_name = ?"

  /** A text whose first clause starts with the keyword is an insert,
      whatever follows. */
  lemma {:induction false} LeadingClause(head: string, rest: string)
    requires |head| >= 6 && head[..6] == "INSERT"
    ensures IsInsert(head + rest)
  {
    UpperKeyword();
    assert (head + rest)[..6] == head[..6];
    KeywordFirst(head[..6], (head + rest)[6..]);
    assert head[..6] + (head + rest)[6..] == head + rest;
  }

  /** The two record inserts report their row id. */
  lemma RecordInsertsAreInserts()
    ensures IsInsert(InsertRecordText)
    ensures IsInsert(LegacyInsertRecordText)
  {
    var h := "INSERT INTO records";
    assert h[..6] == "INSERT";
    LeadingClause(h, InsertRecordText[|h|..]);
    LeadingClause(h, LegacyInsertRecordText[|h|..]);
  }

  /** The annotation insert reports its row id despite its leading newline
      and indentation. */
  lemma AnnotationInsertIsInsert()
    ensures IsInsert(InsertAnnotationText)
  {
    var blanks := "\n" + Indent;
    var h := "INSERT INTO annotations";
    assert h[..6] == "INSERT";
    LeadingClause(h, AnnotationInsertTail);
    assert forall i :: 0 <= i < |blanks| ==> IsSpace(blanks[i]) by {
      forall i | 0 <= i < |blanks| ensures IsSpace(blanks[i]) {
        if i > 0 {
          assert blanks[i] == Indent[i - 1];
        }
      }
    }
    LeadingBlanksIrrelevant(blanks, h + AnnotationInsertTail);
  }

  /** A statement that starts with another keyword, such as the backup
      scripts' marking update, does not pass the test. */
  lemma UpdateIsNotInsert()
    ensures !IsInsert(MarkBackedUpText)
  {
    var u := MarkBackedUpText;
    assert u[0] == 'u' by {
      assert u == "update records" + u[14..];
    }
    NoLeadingBlank(u);
    var r := Strip(u);
    if |r| >= 6 {
      assert r[0] == u[0];
      assert Lower(r)[0] == LowerChar('u') == 'u';
      assert Lower(r)[0] != "insert"[0];
    }
  }

  lemma NoLeadingBlank(s: string)
    requires s != [] && !IsSpace(s[0])
    ensures LStrip(s) == s
  {
  }
}
