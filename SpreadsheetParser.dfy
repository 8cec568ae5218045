/** Contact extraction from an uploaded spreadsheet and question parsing
    (`SpreadsheetParser` in backend/services/spreadsheetParser.js), from the
    rows of cells onward: the first row holds the headers, the phone column is
    the first header naming a phone, and every later row whose phone cell
    cleans to a plausible number becomes a contact. */
module SpreadsheetParser {
  import opened Common
  import opened Text

  /** A cell as the sheet reader yields it; `Empty` is a missing cell. */
  datatype Cell = Empty | Str(s: string) | Num(n: int) | Bool(b: bool)

  /** JavaScript truthiness of a cell. */
  predicate CellTruthy(c: Cell)
  {
    match c
    case Empty => false
    case Str(s) => s != ""
    case Num(n) => n != 0
    case Bool(b) => b
  }

  function IntToString(n: int): string
  {
    if n < 0 then "-" + NatToString(-n) else NatToString(n)
  }

  /** `cell?.toString() || ''`: the text of a cell, empty for a missing one.
      It is also the property name the cell becomes when used as a key. */
  function CellText(c: Cell): string
  {
    match c
    case Empty => ""
    case Str(s) => s
    case Num(n) => IntToString(n)
    case Bool(b) => if b then "true" else "false"
  }

  /** `row[i]`, which is undefined past the end of the row. */
  function CellAt(row: seq<Cell>, i: nat): Cell
  {
    if i < |row| then row[i] else Empty
  }

  const PhoneKeywords: seq<string> := ["phone", "number", "telephone", "tel", "mobile", "cell"]

  /** The lower-cased header contains one of the keywords. */
  predicate HeaderNames(header: Cell, keywords: seq<string>)
  {
    exists k :: 0 <= k < |keywords| && Contains(ToLower(CellText(header)), keywords[k])
  }

  /** The lower-cased header contains one of the phone keywords. */
  predicate IsPhoneHeader(header: Cell)
  {
    HeaderNames(header, PhoneKeywords)
  }

  /** The lowest index from `from` on of a header naming one of the
      keywords, or -1. */
  function FirstNaming(headers: seq<Cell>, keywords: seq<string>, from: nat): (index: int)
    requires from <= |headers|
    decreases |headers| - from
    ensures index == -1 || from <= index < |headers|
    ensures index == -1 <==> forall i :: from <= i < |headers| ==> !HeaderNames(headers[i], keywords)
    ensures index >= 0 ==> HeaderNames(headers[index], keywords) && forall i :: from <= i < index ==> !HeaderNames(headers[i], keywords)
  {
    if from == |headers| then -1
    else if HeaderNames(headers[from], keywords) then from
    else FirstNaming(headers, keywords, from + 1)
  }

  /** The lowest index of a phone header, or -1. */
  function PhoneColumn(headers: seq<Cell>): (index: int)
    ensures -1 <= index < |headers|
    ensures index == -1 <==> forall i :: 0 <= i < |headers| ==> !IsPhoneHeader(headers[i])
    ensures index >= 0 ==> IsPhoneHeader(headers[index]) && forall i :: 0 <= i < index ==> !IsPhoneHeader(headers[i])
  {
    FirstNaming(headers, PhoneKeywords, 0)
  }

  /** `findPhoneColumn`: the indexed loop with its early return. */
  method FindPhoneColumn(headers: seq<Cell>) returns (index: int)
    ensures index == PhoneColumn(headers)
  {
    for i := 0 to |headers|
      invariant forall j :: 0 <= j < i ==> !IsPhoneHeader(headers[j])
    {
      if IsPhoneHeader(headers[i]) {
        return i;
      }
    }
    return -1;
  }

  predicate IsPhoneChar(c: char)
  {
    IsDigit(c) || c == '+'
  }

  /** `s.replace(/[^\d+]/g, '')`. */
  function KeepPhoneChars(s: string): (r: string)
    ensures forall i :: 0 <= i < |r| ==> IsPhoneChar(r[i])
  {
    if s == [] then []
    else (if IsPhoneChar(s[0]) then [s[0]] else []) + KeepPhoneChars(s[1..])
  }

  /** Dropping everything but digits and '+' keeps every digit. */
  lemma {:induction false} KeepPhoneCharsKeepsDigits(s: string)
    ensures Digits(KeepPhoneChars(s)) == Digits(s)
  {
    if s != [] {
      KeepPhoneCharsKeepsDigits(s[1..]);
      var head := if IsPhoneChar(s[0]) then [s[0]] else [];
      DigitsConcat(head, KeepPhoneChars(s[1..]));
    }
  }

  /** A string of digits and '+' is left as it is. */
  lemma {:induction false} KeepPhoneCharsFixes(s: string)
    requires forall i :: 0 <= i < |s| ==> IsPhoneChar(s[i])
    ensures KeepPhoneChars(s) == s
  {
    if s != [] {
      KeepPhoneCharsFixes(s[1..]);
    }
  }

  /** `cleanPhoneNumber`: null for a falsy cell; otherwise the cell's digits
      and '+' signs, when they hold at least ten digits, and null if not. */
  function CleanPhoneNumber(phone: Cell): Option<string>
  {
    if !CellTruthy(phone) then None
    else
      var cleaned := KeepPhoneChars(CellText(phone));
      if |Digits(cleaned)| >= 10 then Some(cleaned) else None
  }

  /** What a cleaned number is: present exactly when the cell is truthy and
      holds at least ten digits; then made only of digits and '+', with the
      cell's digits in order. */
  lemma CleanPhoneNumberSpec(phone: Cell)
    ensures CleanPhoneNumber(phone).Some? <==> CellTruthy(phone) && |Digits(CellText(phone))| >= 10
    ensures CleanPhoneNumber(phone).Some? ==>
      var r := CleanPhoneNumber(phone).value;
      (forall i :: 0 <= i < |r| ==> IsPhoneChar(r[i])) && Digits(r) == Digits(CellText(phone)) && |r| >= 10
  {
    KeepPhoneCharsKeepsDigits(CellText(phone));
  }

  /** Cleaning a cleaned number gives it back. */
  lemma CleanPhoneNumberIdempotent(phone: Cell)
    requires CleanPhoneNumber(phone).Some?
    ensures CleanPhoneNumber(Str(CleanPhoneNumber(phone).value)) == CleanPhoneNumber(phone)
  {
    var r := CleanPhoneNumber(phone).value;
    KeepPhoneCharsFixes(r);
  }

  datatype Contact = Contact(phoneNumber: string, rowIndex: nat, additionalData: map<string, Cell>)

  /** `{contacts, totalRows, validContacts, headers}`. */
  datatype Summary = Summary(contacts: seq<Contact>, totalRows: int, validContacts: int, headers: seq<Cell>)

  const EmptyMessage: string := "Spreadsheet is empty"
  const NoPhoneColumnMessage: string :=
    "No phone number column found. Expected columns like \"phone\", \"number\", \"telephone\", etc."

  /** `headers.forEach` over the first `n` headers: every column other than
      the phone column whose header is present and whose cell is truthy
      stores the cell under the header's name; a later header of the same name
      overwrites an earlier one. */
  function AdditionalData(headers: seq<Cell>, row: seq<Cell>, phoneColumn: int, n: nat): map<string, Cell>
    requires n <= |headers|
  {
    if n == 0 then map[]
    else
      var data := AdditionalData(headers, row, phoneColumn, n - 1);
      var j := n - 1;
      if j != phoneColumn && headers[j] != Empty && CellTruthy(CellAt(row, j))
      then data[CellText(headers[j]) := CellAt(row, j)]
      else data
  }

  /** The column `j` contributes its cell to the additional data. */
  predicate Contributes(headers: seq<Cell>, row: seq<Cell>, phoneColumn: int, j: int)
    requires 0 <= j < |headers|
  {
    j != phoneColumn && headers[j] != Empty && CellTruthy(CellAt(row, j))
  }

  /** Every key of the additional data names some contributing column, never
      the phone column's cell, and holds the cell of the LAST contributing
      column of that name; every contributing column's name is a key. */
  lemma {:induction false} AdditionalDataSpec(headers: seq<Cell>, row: seq<Cell>, phoneColumn: int, n: nat)
    requires n <= |headers|
    ensures forall j :: 0 <= j < n && Contributes(headers, row, phoneColumn, j) ==>
      CellText(headers[j]) in AdditionalData(headers, row, phoneColumn, n)
    ensures forall key :: key in AdditionalData(headers, row, phoneColumn, n) ==>
      exists j :: 0 <= j < n && Contributes(headers, row, phoneColumn, j) && CellText(headers[j]) == key
        && AdditionalData(headers, row, phoneColumn, n)[key] == CellAt(row, j)
        && forall j' :: j < j' < n && Contributes(headers, row, phoneColumn, j') ==> CellText(headers[j']) != key
  {
    AdditionalDataComplete(headers, row, phoneColumn, n);
    AdditionalDataSound(headers, row, phoneColumn, n);
  }

  lemma {:induction false} AdditionalDataComplete(headers: seq<Cell>, row: seq<Cell>, phoneColumn: int, n: nat)
    requires n <= |headers|
    ensures forall j :: 0 <= j < n && Contributes(headers, row, phoneColumn, j) ==>
      CellText(headers[j]) in AdditionalData(headers, row, phoneColumn, n)
  {
    if n > 0 {
      AdditionalDataComplete(headers, row, phoneColumn, n - 1);
    }
  }

  lemma AdditionalDataSound(headers: seq<Cell>, row: seq<Cell>, phoneColumn: int, n: nat)
    requires n <= |headers|
    ensures forall key :: key in AdditionalData(headers, row, phoneColumn, n) ==>
      exists j :: 0 <= j < n && Contributes(headers, row, phoneColumn, j) && CellText(headers[j]) == key
        && AdditionalData(headers, row, phoneColumn, n)[key] == CellAt(row, j)
        && forall j' :: j < j' < n && Contributes(headers, row, phoneColumn, j') ==> CellText(headers[j']) != key
  {
    forall key | key in AdditionalData(headers, row, phoneColumn, n)
      ensures exists j :: 0 <= j < n && Contributes(headers, row, phoneColumn, j) && CellText(headers[j]) == key
                          && AdditionalData(headers, row, phoneColumn, n)[key] == CellAt(row, j)
                          && forall j' :: j < j' < n && Contributes(headers, row, phoneColumn, j') ==> CellText(headers[j']) != key
    {
      var j := LastContributor(headers, row, phoneColumn, n, key);
    }
  }

  /** The column whose cell a key of the additional data holds: the last
      contributing column of that name. */
  lemma {:induction false} LastContributor(headers: seq<Cell>, row: seq<Cell>, phoneColumn: int, n: nat, key: string)
    returns (j: nat)
    requires n <= |headers| && key in AdditionalData(headers, row, phoneColumn, n)
    ensures j < n && Contributes(headers, row, phoneColumn, j) && CellText(headers[j]) == key
    ensures AdditionalData(headers, row, phoneColumn, n)[key] == CellAt(row, j)
    ensures forall j' :: j < j' < n && Contributes(headers, row, phoneColumn, j') ==> CellText(headers[j']) != key
  {
    var last := n - 1;
    if Contributes(headers, row, phoneColumn, last) && CellText(headers[last]) == key {
      j := last;
    } else {
      j := LastContributor(headers, row, phoneColumn, n - 1, key);
    }
  }

  /** The contacts of data rows 1 .. n-1, in row order. */
  function ContactsUpTo(rows: seq<seq<Cell>>, phoneColumn: nat, n: nat): seq<Contact>
    requires 1 <= n <= |rows|
  {
    if n == 1 then []
    else
      var i := n - 1;
      var earlier := ContactsUpTo(rows, phoneColumn, n - 1);
      var phone := CleanPhoneNumber(CellAt(rows[i], phoneColumn));
      if phone.Some? then
        earlier + [Contact(phone.value, i, AdditionalData(rows[0], rows[i], phoneColumn, |rows[0]|))]
      else earlier
  }

  /** Contacts come in row order, one for each data row whose phone cell
      cleans to a number and for no other row, each carrying its row index,
      its cleaned number and that row's additional data. */
  lemma {:induction false} ContactsSpec(rows: seq<seq<Cell>>, phoneColumn: nat, n: nat)
    requires 1 <= n <= |rows|
    ensures var cs := ContactsUpTo(rows, phoneColumn, n);
      && |cs| <= n - 1
      && (forall a, b :: 0 <= a < b < |cs| ==> cs[a].rowIndex < cs[b].rowIndex)
      && (forall c :: c in cs ==>
            && 1 <= c.rowIndex < n
            && CleanPhoneNumber(CellAt(rows[c.rowIndex], phoneColumn)) == Some(c.phoneNumber)
            && c.additionalData == AdditionalData(rows[0], rows[c.rowIndex], phoneColumn, |rows[0]|))
      && (forall i :: 1 <= i < n && CleanPhoneNumber(CellAt(rows[i], phoneColumn)).Some? ==>
            exists c :: c in cs && c.rowIndex == i)
  {
    if n > 1 {
      ContactsSpec(rows, phoneColumn, n - 1);
      var earlier := ContactsUpTo(rows, phoneColumn, n - 1);
      var cs := ContactsUpTo(rows, phoneColumn, n);
      forall i | 1 <= i < n && CleanPhoneNumber(CellAt(rows[i], phoneColumn)).Some?
        ensures exists c :: c in cs && c.rowIndex == i
      {
        if i < n - 1 {
          var c :| c in earlier && c.rowIndex == i;
          assert c in cs;
        } else {
          assert cs[|cs| - 1].rowIndex == i;
        }
      }
    }
  }

  /** `processSpreadsheetData`. */
  method ProcessSpreadsheetData(rawData: Option<seq<seq<Cell>>>) returns (r: Result<Summary>)
    ensures rawData.None? || rawData.value == [] ==> r == Err(EmptyMessage)
    ensures rawData.Some? && rawData.value != [] && PhoneColumn(rawData.value[0]) == -1 ==> r == Err(NoPhoneColumnMessage)
    ensures rawData.Some? && rawData.value != [] && PhoneColumn(rawData.value[0]) >= 0 ==>
      var rows := rawData.value;
      var contacts := ContactsUpTo(rows, PhoneColumn(rows[0]), |rows|);
      r == Ok(Summary(contacts, |rows| - 1, |contacts|, rows[0]))
  {
    if rawData.None? || |rawData.value| == 0 {
      return Err(EmptyMessage);
    }
    var rows := rawData.value;
    var headers := rows[0];
    var phoneColumnIndex := FindPhoneColumn(headers);
    if phoneColumnIndex == -1 {
      return Err(NoPhoneColumnMessage);
    }
    var contacts := CollectContacts(rows, phoneColumnIndex);
    return Ok(Summary(contacts, |rows| - 1, |contacts|, headers));
  }

  /** The loop of `processSpreadsheetData` over the data rows. */
  method CollectContacts(rows: seq<seq<Cell>>, phoneColumnIndex: nat) returns (contacts: seq<Contact>)
    requires |rows| >= 1
    ensures contacts == ContactsUpTo(rows, phoneColumnIndex, |rows|)
  {
    contacts := [];
    var i := 1;
    while i < |rows|
      invariant 1 <= i <= |rows|
      invariant contacts == ContactsUpTo(rows, phoneColumnIndex, i)
    {
      var row := rows[i];
      var phoneNumber := CleanPhoneNumber(CellAt(row, phoneColumnIndex));
      if phoneNumber.Some? {
        var additionalData := CollectAdditionalData(rows[0], row, phoneColumnIndex);
        contacts := contacts + [Contact(phoneNumber.value, i, additionalData)];
      }
      i := i + 1;
    }
  }

  /** The `headers.forEach` that fills one contact's additional data. */
  method CollectAdditionalData(headers: seq<Cell>, row: seq<Cell>, phoneColumn: int) returns (data: map<string, Cell>)
    ensures data == AdditionalData(headers, row, phoneColumn, |headers|)
  {
    data := map[];
    for index := 0 to |headers|
      invariant data == AdditionalData(headers, row, phoneColumn, index)
    {
      var header := headers[index];
      if header != Empty && index != phoneColumn && CellTruthy(CellAt(row, index)) {
        data := data[CellText(header) := CellAt(row, index)];
      }
    }
  }

  /** The counts of a summary: `validContacts` never exceeds `totalRows`. */
  lemma SummaryCounts(rows: seq<seq<Cell>>)
    requires rows != [] && PhoneColumn(rows[0]) >= 0
    ensures var contacts := ContactsUpTo(rows, PhoneColumn(rows[0]), |rows|);
      |contacts| <= |rows| - 1
  {
    ContactsSpec(rows, PhoneColumn(rows[0]), |rows|);
  }

  // ---------------------------------------------------------------------
  // parseQuestions

  datatype Question = Question(id: nat, text: string, questionType: string)

  const QuestionsRequiredMessage: string := "Questions text is required"
  const NoQuestionsMessage: string := "No valid questions found"

  /** `.map(q => q.trim()).filter(q => q.length > 0)`. */
  function NonBlankTrimmed(lines: seq<string>): (r: seq<string>)
    ensures |r| <= |lines|
    ensures forall i :: 0 <= i < |r| ==> r[i] != ""
  {
    if lines == [] then []
    else (if Trim(lines[0]) != "" then [Trim(lines[0])] else []) + NonBlankTrimmed(lines[1..])
  }

  /** The mapping and filtering work line by line: the surviving texts of two
      blocks of lines are those of the first block followed by those of the
      second, and a single line survives, trimmed, exactly when it is not
      blank. Together these fix `NonBlankTrimmed` on every input. */
  lemma NonBlankTrimmedLine(line: string)
    ensures NonBlankTrimmed([line]) == if IsBlank(line) then [] else [Trim(line)]
  {
    TrimEmptyIffBlank(line);
    assert [line][1..] == [];
  }

  lemma NonBlankTrimmedCons(line: string, rest: seq<string>)
    ensures NonBlankTrimmed([line] + rest) == NonBlankTrimmed([line]) + NonBlankTrimmed(rest)
  {
    var lines := [line] + rest;
    assert lines[0] == line && lines[1..] == rest;
    assert [line][1..] == [];
  }

  lemma AppendCons(a: seq<string>, b: seq<string>)
    requires a != []
    ensures a == [a[0]] + a[1..] && a + b == [a[0]] + (a[1..] + b)
  {
  }

  lemma AppendAssoc(x: seq<string>, y: seq<string>, z: seq<string>)
    ensures x + (y + z) == (x + y) + z
  {
  }

  lemma {:induction false} NonBlankTrimmedAppend(a: seq<string>, b: seq<string>)
    ensures NonBlankTrimmed(a + b) == NonBlankTrimmed(a) + NonBlankTrimmed(b)
  {
    if a != [] {
      var line, rest := a[0], a[1..];
      AppendCons(a, b);
      NonBlankTrimmedAppend(rest, b);
      NonBlankTrimmedCons(line, rest + b);
      NonBlankTrimmedCons(line, rest);
      AppendAssoc(NonBlankTrimmed([line]), NonBlankTrimmed(rest), NonBlankTrimmed(b));
    } else {
      assert a + b == b;
    }
  }

  /** `.map(q => q.trim())`: every line trimmed, in order. */
  function TrimAll(lines: seq<string>): seq<string>
  {
    if lines == [] then [] else [Trim(lines[0])] + TrimAll(lines[1..])
  }

  /** A text survives exactly when it is non-empty and is the trimmed form of
      some line. */
  lemma {:induction false} NonBlankTrimmedMembers(lines: seq<string>)
    ensures forall q :: q in NonBlankTrimmed(lines) <==> q != "" && q in TrimAll(lines)
  {
    if lines != [] {
      var line, rest := lines[0], lines[1..];
      NonBlankTrimmedMembers(rest);
      assert lines == [line] + rest;
      NonBlankTrimmedCons(line, rest);
      NonBlankTrimmedLine(line);
      TrimEmptyIffBlank(line);
      assert TrimAll(lines) == [Trim(line)] + TrimAll(rest);
      forall q ensures q in NonBlankTrimmed(lines) <==> q != "" && q in TrimAll(lines) {
        assert q in TrimAll(lines) <==> q == Trim(line) || q in TrimAll(rest);
        assert q in NonBlankTrimmed(lines) <==> q in NonBlankTrimmed([line]) || q in NonBlankTrimmed(rest);
      }
    }
  }

  /** `parseQuestions`: one question per non-blank line, trimmed, numbered
      from 1, of type "open_ended". */
  function ParseQuestions(questionsText: Option<string>): Result<seq<Question>>
  {
    if questionsText.None? || questionsText.value == "" then Err(QuestionsRequiredMessage)
    else
      var texts := NonBlankTrimmed(Split(questionsText.value, '\n'));
      if texts == [] then Err(NoQuestionsMessage)
      else Ok(seq(|texts|, i requires 0 <= i < |texts| => Question(i + 1, texts[i], "open_ended")))
  }

  lemma {:induction false} BlankJoin(parts: seq<string>, sep: char)
    requires |parts| >= 1 && IsSpace(sep)
    ensures IsBlank(Join(parts, sep)) <==> forall k :: 0 <= k < |parts| ==> IsBlank(parts[k])
  {
    if |parts| > 1 {
      BlankJoin(parts[1..], sep);
      var tail := Join(parts[1..], sep);
      var whole := parts[0] + [sep] + tail;
      assert whole[..|parts[0]|] == parts[0];
      assert whole[|parts[0]| + 1..] == tail;
      if IsBlank(whole) {
        assert IsBlank(parts[0]) by {
          forall i | 0 <= i < |parts[0]| ensures IsSpace(parts[0][i]) {
            assert parts[0][i] == whole[i];
          }
        }
        assert IsBlank(tail) by {
          forall i | 0 <= i < |tail| ensures IsSpace(tail[i]) {
            assert tail[i] == whole[i + |parts[0]| + 1];
          }
        }
        forall k | 1 <= k < |parts| ensures IsBlank(parts[k]) {
          assert parts[k] == parts[1..][k - 1];
        }
      }
      if forall k :: 0 <= k < |parts| ==> IsBlank(parts[k]) {
        assert IsBlank(parts[0]) && IsBlank(tail);
        forall i | 0 <= i < |whole| ensures IsSpace(whole[i]) {
          if i > |parts[0]| {
            assert whole[i] == tail[i - |parts[0]| - 1];
          }
        }
      }
    }
  }

  /** Every line is blank exactly when the first one is and every later one is. */
  lemma AllBlankCons(lines: seq<string>)
    requires lines != []
    ensures (forall k :: 0 <= k < |lines| ==> IsBlank(lines[k]))
        <==> IsBlank(lines[0]) && forall k :: 0 <= k < |lines[1..]| ==> IsBlank(lines[1..][k])
  {
    if IsBlank(lines[0]) && forall k :: 0 <= k < |lines[1..]| ==> IsBlank(lines[1..][k]) {
      forall k | 0 < k < |lines| ensures IsBlank(lines[k]) {
        assert lines[k] == lines[1..][k - 1];
      }
    }
  }

  lemma {:induction false} NonBlankTrimmedEmpty(lines: seq<string>)
    ensures NonBlankTrimmed(lines) == [] <==> forall k :: 0 <= k < |lines| ==> IsBlank(lines[k])
  {
    if lines != [] {
      NonBlankTrimmedEmpty(lines[1..]);
      TrimEmptyIffBlank(lines[0]);
      AllBlankCons(lines);
      var head := if Trim(lines[0]) != "" then [Trim(lines[0])] else [];
      assert NonBlankTrimmed(lines) == head + NonBlankTrimmed(lines[1..]);
      assert head == [] <==> IsBlank(lines[0]);
    }
  }

  /** `parseQuestions` throws exactly when the text is missing or only white
      space (including newlines); otherwise the questions are numbered 1..n in
      order, each non-empty, trimmed and on one line. */
  lemma ParseQuestionsSpec(questionsText: Option<string>)
    ensures ParseQuestions(questionsText).Err? <==> questionsText.None? || IsBlank(questionsText.value)
    ensures questionsText.None? || questionsText.value == "" ==> ParseQuestions(questionsText) == Err(QuestionsRequiredMessage)
    ensures questionsText.Some? && questionsText.value != "" && IsBlank(questionsText.value) ==>
      ParseQuestions(questionsText) == Err(NoQuestionsMessage)
    ensures ParseQuestions(questionsText).Ok? ==>
      var qs := ParseQuestions(questionsText).value;
      var texts := NonBlankTrimmed(Split(questionsText.value, '\n'));
      && |qs| >= 1 && |qs| == |texts|
      && forall i :: 0 <= i < |qs| ==>
        qs[i] == Question(i + 1, texts[i], "open_ended") && qs[i].text != ""
  {
    if questionsText.Some? && questionsText.value != "" {
      var t := questionsText.value;
      var lines := Split(t, '\n');
      assert NonBlankTrimmed(lines) == [] <==> IsBlank(t) by {
        JoinSplit(t, '\n');
        BlankJoin(lines, '\n');
        NonBlankTrimmedEmpty(lines);
      }
    }
  }

  /** Trimming a line keeps it free of newlines. */
  lemma TrimKeepsNoNewline(line: string)
    requires '\n' !in line
    ensures '\n' !in Trim(line)
  {
    var t := TrimStart(line);
    var u := TrimEnd(t);
    var a := |line| - |t|;
    assert t == line[a..] && u == t[..|u|];
    forall i | 0 <= i < |u| ensures u[i] != '\n' {
      assert u[i] == t[i] == line[a + i];
    }
  }

  /** Each question's text is the trimmed form of a line: trimming it again
      changes nothing, and it holds no newline. */
  lemma {:induction false} NonBlankTrimmedLines(lines: seq<string>)
    requires forall k :: 0 <= k < |lines| ==> '\n' !in lines[k]
    ensures forall q :: q in NonBlankTrimmed(lines) ==> Trim(q) == q && '\n' !in q
  {
    if lines != [] {
      NonBlankTrimmedLines(lines[1..]);
      TrimIdempotent(lines[0]);
      TrimKeepsNoNewline(lines[0]);
      var head := if Trim(lines[0]) != "" then [Trim(lines[0])] else [];
      assert NonBlankTrimmed(lines) == head + NonBlankTrimmed(lines[1..]);
      forall q | q in NonBlankTrimmed(lines) ensures Trim(q) == q && '\n' !in q {
        if q !in NonBlankTrimmed(lines[1..]) {
          assert q == Trim(lines[0]);
        }
      }
    }
  }

  /** Each question's text is one of the texts it was numbered from. */
  lemma NumberedTexts(texts: seq<string>, q: Question)
    requires q in seq(|texts|, i requires 0 <= i < |texts| => Question(i + 1, texts[i], "open_ended"))
    ensures q.text in texts
  {
    var qs := seq(|texts|, i requires 0 <= i < |texts| => Question(i + 1, texts[i], "open_ended"));
    var i :| 0 <= i < |qs| && qs[i] == q;
    assert q.text == texts[i];
  }

  lemma ParsedQuestionTexts(questionsText: string)
    ensures ParseQuestions(Some(questionsText)).Ok? ==>
      forall q :: q in ParseQuestions(Some(questionsText)).value ==> Trim(q.text) == q.text && '\n' !in q.text
  {
    SplitPiecesFree(questionsText, '\n');
    var lines := Split(questionsText, '\n');
    forall k | 0 <= k < |lines| ensures '\n' !in lines[k] {
      assert forall i :: 0 <= i < |lines[k]| ==> lines[k][i] != '\n';
    }
    NonBlankTrimmedLines(lines);
    if ParseQuestions(Some(questionsText)).Ok? {
      var texts := NonBlankTrimmed(lines);
      forall q | q in ParseQuestions(Some(questionsText)).value ensures Trim(q.text) == q.text && '\n' !in q.text {
        NumberedTexts(texts, q);
      }
    }
  }
}
