/** The uploaded-documents table (`src/Pages/DocumentTable.js`): one numbered row per
    document, its camelCase type turned into a spaced label, and its upload date. */
module DocumentTable {
  import opened Wrappers
  import opened Text

  /** The number of ASCII capitals in `s`. */
  function CountUpper(s: string): nat {
    if |s| == 0 then 0 else (if IsUpper(s[0]) then 1 else 0) + CountUpper(s[1..])
  }

  /** `s.replace(/([A-Z])/g, " $1")`: a space in front of every capital. */
  function SplitCamel(s: string): (r: string)
    ensures |r| == |s| + CountUpper(s)
    ensures |r| > 0 ==> !IsUpper(r[0])
    ensures |s| > 0 && IsUpper(s[0]) ==> r[0] == ' '
    ensures |s| > 0 && !IsUpper(s[0]) ==> r[0] == s[0]
  {
    if |s| == 0 then ""
    else (if IsUpper(s[0]) then [' ', s[0]] else [s[0]]) + SplitCamel(s[1..])
  }

  /** Drops every space that stands right before a capital: the reference inverse
      of `SplitCamel`. */
  function Unsplit(t: string): string
    decreases |t|
  {
    if |t| == 0 then ""
    else if |t| >= 2 && t[0] == ' ' && IsUpper(t[1]) then [t[1]] + Unsplit(t[2..])
    else [t[0]] + Unsplit(t[1..])
  }

  /** No information is lost by splitting: removing the inserted spaces gives the
      identifier back. */
  lemma {:induction false} UnsplitSplitCamel(s: string)
    ensures Unsplit(SplitCamel(s)) == s
    decreases |s|
  {
    if |s| > 0 {
      var rest := SplitCamel(s[1..]);
      UnsplitSplitCamel(s[1..]);
      if IsUpper(s[0]) {
        var t := [' ', s[0]] + rest;
        assert SplitCamel(s) == t;
        assert t[2..] == rest;
      } else {
        var t := [s[0]] + rest;
        assert SplitCamel(s) == t;
        assert t[1..] == rest;
        assert |t| >= 2 ==> !IsUpper(t[1]);
      }
    }
  }

  /** JavaScript's `.` does not match a line terminator. */
  predicate IsLineTerminator(c: char) {
    c == '\n' || c == '\r' || c == '\U{2028}' || c == '\U{2029}'
  }

  /** `t.replace(/^./, c => c.toUpperCase())`. */
  function UpperFirst(t: string): (r: string)
    ensures |r| == |t|
    ensures |t| > 0 ==> r[1..] == t[1..]
    ensures |t| > 0 && !IsLineTerminator(t[0]) ==> r[0] == UpperChar(t[0])
    ensures |t| > 0 && IsLineTerminator(t[0]) ==> r[0] == t[0]
  {
    if |t| > 0 && !IsLineTerminator(t[0]) then [UpperChar(t[0])] + t[1..] else t
  }

  /** The "Document Name" cell. */
  function Label(docType: string): string {
    UpperFirst(SplitCamel(docType))
  }

  /** The label is one character longer per capital; a leading capital gets a leading
      space (which upper-casing leaves alone), and a leading lower-case letter is
      capitalised. */
  lemma LabelShape(docType: string)
    ensures |Label(docType)| == |docType| + CountUpper(docType)
    ensures |docType| > 0 && IsUpper(docType[0]) ==> Label(docType)[0] == ' '
    ensures |docType| > 0 && IsLower(docType[0]) ==> Label(docType)[0] == UpperChar(docType[0])
  {
  }

  /** Removing the inserted spaces from the label, after putting the identifier's
      own first character back, gives the identifier. */
  lemma LabelRestores(docType: string)
    requires |docType| > 0
    ensures Unsplit([SplitCamel(docType)[0]] + Label(docType)[1..]) == docType
  {
    var t := SplitCamel(docType);
    assert Label(docType) == UpperFirst(t);
    UpperFirstKeepsTail(t);
    UnsplitSplitCamel(docType);
  }

  /** Putting the original first character back undoes `UpperFirst`. */
  lemma UpperFirstKeepsTail(t: string)
    requires |t| > 0
    ensures [t[0]] + UpperFirst(t)[1..] == t
  {
    assert UpperFirst(t)[1..] == t[1..];
  }

  /** `formatDate`: a dash for a missing or empty date, otherwise the day as the
      host's `en-GB` locale writes it (`locale` stands for that). */
  function FormatDate(date: Option<string>, locale: string -> string): (r: string)
    ensures (date.None? || date.value == "") ==> r == "-"
    ensures date.Some? && date.value != "" ==> r == locale(date.value)
  {
    if date.None? || date.value == "" then "-" else locale(date.value)
  }

  datatype Document = Document(docType: string, uploadedAt: Option<string>)

  datatype Row = Row(number: nat, name: string, uploadedOn: string, status: string)

  datatype Body = EmptyNotice | Rows(rows: seq<Row>)

  /** The table body: the "No documents uploaded yet." row when there is nothing,
      otherwise one row per document numbered from 1 in list order. */
  function TableBody(documents: seq<Document>, locale: string -> string): (r: Body)
    ensures r.EmptyNotice? <==> |documents| == 0
    ensures r.Rows? ==> |r.rows| == |documents|
    ensures r.Rows? ==> forall k :: 0 <= k < |documents| ==>
      r.rows[k] == Row(k + 1, Label(documents[k].docType), FormatDate(documents[k].uploadedAt, locale), "Uploaded")
  {
    if |documents| == 0 then EmptyNotice
    else Rows(seq(|documents|, k requires 0 <= k < |documents| =>
      Row(k + 1, Label(documents[k].docType), FormatDate(documents[k].uploadedAt, locale), "Uploaded")))
  }
}
