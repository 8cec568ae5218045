/** The customer-list upload page (frontend/src/app/leads/page.tsx): header
    normalisation, the re-keying of every parsed CSV row by the normalised
    headers, and the storing of a new request at the front of the saved list.
    CSV parsing itself, `localStorage` and the JSON round trip of the saved
    list are not part of this model: the parsed fields and rows, and the list
    read back, are parameters. */
module Leads {
  import opened Common
  import opened Text

  // ---------------------------------------------------------------------
  // normalizeHeader

  /** `s.replace(/\s+/g, ' ')`: every run of white space becomes one space. */
  function CollapseSpace(s: string): string
    decreases |s|
  {
    if s == [] then []
    else if IsSpace(s[0]) then [' '] + CollapseSpace(TrimStart(s[1..]))
    else [s[0]] + CollapseSpace(s[1..])
  }

  /** `s.replace(/ /g, '')`. */
  function RemoveSpaces(s: string): string
  {
    if s == [] then []
    else (if s[0] == ' ' then [] else [s[0]]) + RemoveSpaces(s[1..])
  }

  predicate IsAsciiAlnum(c: char)
  {
    'a' <= c <= 'z' || 'A' <= c <= 'Z' || '0' <= c <= '9'
  }

  /** `s.replace(/[^a-zA-Z0-9]/g, '')`. */
  function KeepAlnum(s: string): string
  {
    if s == [] then []
    else (if IsAsciiAlnum(s[0]) then [s[0]] else []) + KeepAlnum(s[1..])
  }

  /** `normalizeHeader`, step by step as written. */
  function NormalizeHeader(header: string): string
  {
    KeepAlnum(RemoveSpaces(ToLower(Trim(CollapseSpace(header)))))
  }

  predicate IsLowerAlnum(c: char)
  {
    'a' <= c <= 'z' || '0' <= c <= '9'
  }

  /** The reference definition: the lower-cased letters and the digits of
      `s`, in order; everything else is dropped. */
  function LowerAlnum(s: string): (r: string)
    ensures forall i :: 0 <= i < |r| ==> IsLowerAlnum(r[i])
  {
    if s == [] then []
    else (if IsAsciiAlnum(s[0]) then [LowerChar(s[0])] else []) + LowerAlnum(s[1..])
  }

  lemma {:induction false} LowerAlnumConcat(a: string, b: string)
    ensures LowerAlnum(a + b) == LowerAlnum(a) + LowerAlnum(b)
  {
    if a == [] {
      assert a + b == b;
    } else {
      assert (a + b)[0] == a[0] && (a + b)[1..] == a[1..] + b;
      LowerAlnumConcat(a[1..], b);
      var head := if IsAsciiAlnum(a[0]) then [LowerChar(a[0])] else [];
      assert LowerAlnum(a + b) == head + LowerAlnum(a[1..] + b);
      assert head + (LowerAlnum(a[1..]) + LowerAlnum(b)) == (head + LowerAlnum(a[1..])) + LowerAlnum(b);
    }
  }

  lemma {:induction false} LowerAlnumBlank(s: string)
    requires IsBlank(s)
    ensures LowerAlnum(s) == []
  {
    if s != [] {
      LowerAlnumBlank(s[1..]);
    }
  }

  lemma {:induction false} KeepAlnumRemoveSpaces(s: string)
    ensures KeepAlnum(RemoveSpaces(s)) == KeepAlnum(s)
  {
    if s != [] {
      KeepAlnumRemoveSpaces(s[1..]);
      var head := if s[0] == ' ' then [] else [s[0]];
      assert RemoveSpaces(s) == head + RemoveSpaces(s[1..]);
      KeepAlnumConcat(head, RemoveSpaces(s[1..]));
    }
  }

  lemma {:induction false} KeepAlnumConcat(a: string, b: string)
    ensures KeepAlnum(a + b) == KeepAlnum(a) + KeepAlnum(b)
  {
    if a == [] {
      assert a + b == b;
    } else {
      assert (a + b)[0] == a[0] && (a + b)[1..] == a[1..] + b;
      KeepAlnumConcat(a[1..], b);
      var head := if IsAsciiAlnum(a[0]) then [a[0]] else [];
      assert KeepAlnum(a + b) == head + KeepAlnum(a[1..] + b);
      assert head + (KeepAlnum(a[1..]) + KeepAlnum(b)) == (head + KeepAlnum(a[1..])) + KeepAlnum(b);
    }
  }

  lemma {:induction false} KeepAlnumToLower(s: string)
    ensures KeepAlnum(ToLower(s)) == LowerAlnum(s)
  {
    if s != [] {
      assert ToLower(s)[1..] == ToLower(s[1..]);
      KeepAlnumToLower(s[1..]);
    }
  }

  lemma LowerAlnumBlankPrefix(s: string, i: nat)
    requires i <= |s| && IsBlank(s[..i])
    ensures LowerAlnum(s) == LowerAlnum(s[i..])
  {
    assert s == s[..i] + s[i..];
    LowerAlnumConcat(s[..i], s[i..]);
    LowerAlnumBlank(s[..i]);
  }

  lemma LowerAlnumBlankSuffix(s: string, j: nat)
    requires j <= |s| && IsBlank(s[j..])
    ensures LowerAlnum(s) == LowerAlnum(s[..j])
  {
    assert s == s[..j] + s[j..];
    LowerAlnumConcat(s[..j], s[j..]);
    LowerAlnumBlank(s[j..]);
  }

  lemma LowerAlnumTrim(s: string)
    ensures LowerAlnum(Trim(s)) == LowerAlnum(s)
  {
    var t := TrimStart(s);
    LowerAlnumBlankPrefix(s, |s| - |t|);
    var u := TrimEnd(t);
    LowerAlnumBlankSuffix(t, |u|);
  }

  lemma SpaceIsNotAlnum(c: char)
    requires IsSpace(c)
    ensures !IsAsciiAlnum(c)
  {
  }

  lemma {:induction false} LowerAlnumCollapse(s: string)
    ensures LowerAlnum(CollapseSpace(s)) == LowerAlnum(s)
    decreases |s|
  {
    if s != [] {
      if IsSpace(s[0]) {
        var rest := TrimStart(s[1..]);
        LowerAlnumCollapse(rest);
        var cut := |s[1..]| - |rest|;
        assert s[1..] == s[1..][..cut] + rest;
        LowerAlnumConcat(s[1..][..cut], rest);
        LowerAlnumBlank(s[1..][..cut]);
        LowerAlnumConcat([' '], CollapseSpace(rest));
        assert LowerAlnum([' ']) == [];
        SpaceIsNotAlnum(s[0]);
        assert LowerAlnum(s) == LowerAlnum(s[1..]);
      } else {
        LowerAlnumCollapse(s[1..]);
        LowerAlnumConcat([s[0]], CollapseSpace(s[1..]));
        assert CollapseSpace(s) == [s[0]] + CollapseSpace(s[1..]);
        assert [s[0]][1..] == [];
      }
    }
  }

  /** The chain of replacements keeps exactly the letters and digits of the
      header, lower-cased and in order: white space and punctuation of any
      kind and position are dropped. */
  lemma NormalizeHeaderSpec(header: string)
    ensures NormalizeHeader(header) == LowerAlnum(header)
  {
    var t := Trim(CollapseSpace(header));
    KeepAlnumRemoveSpaces(ToLower(t));
    KeepAlnumToLower(t);
    LowerAlnumTrim(CollapseSpace(header));
    LowerAlnumCollapse(header);
  }

  lemma {:induction false} LowerAlnumFixes(s: string)
    requires forall i :: 0 <= i < |s| ==> IsLowerAlnum(s[i])
    ensures LowerAlnum(s) == s
  {
    if s != [] {
      LowerAlnumFixes(s[1..]);
    }
  }

  /** A normalised header holds only lower-case letters and digits, and
      normalising it again changes nothing. */
  lemma NormalizeHeaderIdempotent(header: string)
    ensures forall i :: 0 <= i < |NormalizeHeader(header)| ==> IsLowerAlnum(NormalizeHeader(header)[i])
    ensures NormalizeHeader(NormalizeHeader(header)) == NormalizeHeader(header)
  {
    NormalizeHeaderSpec(header);
    NormalizeHeaderSpec(NormalizeHeader(header));
    LowerAlnumFixes(LowerAlnum(header));
  }

  /** A character other than an ASCII letter or digit, anywhere in a header,
      does not change its key. */
  lemma NormalizeIgnoresSeparator(before: string, c: char, after: string)
    requires !IsAsciiAlnum(c)
    ensures NormalizeHeader(before + [c] + after) == NormalizeHeader(before + after)
  {
    NormalizeHeaderSpec(before + [c] + after);
    NormalizeHeaderSpec(before + after);
    LowerAlnumDropsSeparator(before, c, after);
  }

  lemma LowerAlnumDropsSeparator(before: string, c: char, after: string)
    requires !IsAsciiAlnum(c)
    ensures LowerAlnum(before + [c] + after) == LowerAlnum(before + after)
  {
    LowerAlnumConcat(before + [c], after);
    LowerAlnumConcat(before, [c]);
    LowerAlnumConcat(before, after);
    assert [c][1..] == [];
    assert LowerAlnum([c]) == [];
  }

  lemma {:induction false} LowerAlnumToLower(s: string)
    ensures LowerAlnum(ToLower(s)) == LowerAlnum(s)
  {
    if s != [] {
      assert ToLower(s)[1..] == ToLower(s[1..]);
      LowerAlnumToLower(s[1..]);
    }
  }

  /** Case does not change a header's key. */
  lemma NormalizeIgnoresCase(header: string)
    ensures NormalizeHeader(ToLower(header)) == NormalizeHeader(header)
  {
    NormalizeHeaderSpec(ToLower(header));
    NormalizeHeaderSpec(header);
    LowerAlnumToLower(header);
  }

  // ---------------------------------------------------------------------
  // Row normalisation in handleFileChange

  /** A parsed CSV row: field name to cell text. */
  type Row = map<string, string>

  /** A re-keyed row; `row[h]` is undefined when the row lacks the field. */
  type NormRow = map<string, Option<string>>

  function Lookup(row: Row, field: string): Option<string>
  {
    if field in row then Some(row[field]) else None
  }

  /** `rawHeaders.map(normalizeHeader)`. */
  function NormalizeHeaders(rawHeaders: seq<string>): (r: seq<string>)
    ensures |r| == |rawHeaders|
    ensures forall i :: 0 <= i < |r| ==> r[i] == NormalizeHeader(rawHeaders[i])
  {
    seq(|rawHeaders|, i requires 0 <= i < |rawHeaders| => NormalizeHeader(rawHeaders[i]))
  }

  /** The `forEach` over the first `n` headers: `newRow[normHeaders[i]] = row[rawHeaders[i]]`. */
  function NormalizedRow(rawHeaders: seq<string>, normHeaders: seq<string>, row: Row, n: nat): NormRow
    requires |normHeaders| == |rawHeaders| && n <= |rawHeaders|
  {
    if n == 0 then map[]
    else NormalizedRow(rawHeaders, normHeaders, row, n - 1)[normHeaders[n - 1] := Lookup(row, rawHeaders[n - 1])]
  }

  /** The keys of a re-keyed row are exactly the normalised headers. */
  lemma {:induction false} NormalizedRowKeys(rawHeaders: seq<string>, normHeaders: seq<string>, row: Row, n: nat)
    requires |normHeaders| == |rawHeaders| && n <= |rawHeaders|
    ensures NormalizedRow(rawHeaders, normHeaders, row, n).Keys == set j | 0 <= j < n :: normHeaders[j]
  {
    if n > 0 {
      NormalizedRowKeys(rawHeaders, normHeaders, row, n - 1);
      assert (set j | 0 <= j < n :: normHeaders[j]) == (set j | 0 <= j < n - 1 :: normHeaders[j]) + {normHeaders[n - 1]};
    }
  }

  /** Each key holds the raw value under the LAST raw header that normalises
      to it: on a collision the later header wins. */
  lemma {:induction false} NormalizedRowValues(rawHeaders: seq<string>, normHeaders: seq<string>, row: Row, n: nat, j: nat)
    requires |normHeaders| == |rawHeaders| && j < n <= |rawHeaders|
    requires forall k :: j < k < n ==> normHeaders[k] != normHeaders[j]
    ensures normHeaders[j] in NormalizedRow(rawHeaders, normHeaders, row, n)
    ensures NormalizedRow(rawHeaders, normHeaders, row, n)[normHeaders[j]] == Lookup(row, rawHeaders[j])
  {
    if j < n - 1 {
      NormalizedRowValues(rawHeaders, normHeaders, row, n - 1, j);
    }
  }

  /** One row of `normData`: the `forEach` that fills `newRow`. */
  method NormalizeRow(rawHeaders: seq<string>, normHeaders: seq<string>, row: Row) returns (newRow: NormRow)
    requires |normHeaders| == |rawHeaders|
    ensures newRow == NormalizedRow(rawHeaders, normHeaders, row, |rawHeaders|)
  {
    newRow := map[];
    for i := 0 to |rawHeaders|
      invariant newRow == NormalizedRow(rawHeaders, normHeaders, row, i)
    {
      newRow := newRow[normHeaders[i] := Lookup(row, rawHeaders[i])];
    }
  }

  type FileRef = nat

  /** The page state the upload touches. */
  datatype Page = Page(file: Option<FileRef>, headers: seq<string>, previewData: seq<NormRow>, confirmed: bool)

  /** `handleFileChange` followed by the parser's `complete` callback: with a
      selected file, the headers and every row are normalised and any earlier
      confirmation is withdrawn; without one, nothing changes. */
  method OnFileLoaded(page: Page, selected: Option<FileRef>, fields: Option<seq<string>>, rows: seq<Row>)
    returns (next: Page)
    ensures selected.None? ==> next == page
    ensures selected.Some? ==>
      var rawHeaders := if fields.Some? then fields.value else [];
      && next.file == selected
      && next.headers == NormalizeHeaders(rawHeaders)
      && |next.previewData| == |rows|
      && (forall i :: 0 <= i < |rows| ==>
            next.previewData[i] == NormalizedRow(rawHeaders, next.headers, rows[i], |rawHeaders|))
      && !next.confirmed
  {
    if selected.None? {
      return page;
    }
    var rawHeaders := if fields.Some? then fields.value else [];
    var normHeaders := NormalizeHeaders(rawHeaders);
    var normData := NormalizeData(rawHeaders, normHeaders, rows);
    next := Page(selected, normHeaders, normData, false);
  }

  /** `results.data.map(row => ...)`: every row re-keyed, in order. */
  method NormalizeData(rawHeaders: seq<string>, normHeaders: seq<string>, rows: seq<Row>) returns (normData: seq<NormRow>)
    requires |normHeaders| == |rawHeaders|
    ensures |normData| == |rows|
    ensures forall k :: 0 <= k < |rows| ==> normData[k] == NormalizedRow(rawHeaders, normHeaders, rows[k], |rawHeaders|)
  {
    normData := [];
    for i := 0 to |rows|
      invariant |normData| == i
      invariant forall k :: 0 <= k < i ==> normData[k] == NormalizedRow(rawHeaders, normHeaders, rows[k], |rawHeaders|)
    {
      var newRow := NormalizeRow(rawHeaders, normHeaders, rows[i]);
      normData := normData + [newRow];
    }
  }

  /** `handleConfirm`. */
  function Confirm(page: Page): (next: Page)
    ensures next.confirmed
    ensures next.file == page.file && next.headers == page.headers && next.previewData == page.previewData
  {
    page.(confirmed := true)
  }

  // ---------------------------------------------------------------------
  // handleContinue

  datatype StoredRequest = StoredRequest(id: string, date: string, status: string, customers: seq<NormRow>)

  /** `requests.unshift(newRequest)` on the saved list, or on `[]` when
      nothing was saved. `id` and `date` are the generated id and today's
      date. */
  method HandleContinue(saved: Option<seq<StoredRequest>>, id: string, date: string, previewData: seq<NormRow>)
    returns (requests: seq<StoredRequest>)
    ensures var before := if saved.Some? then saved.value else [];
      && |requests| == |before| + 1
      && requests[0] == StoredRequest(id, date, "Complete", previewData)
      && requests[1..] == before
  {
    requests := if saved.Some? then saved.value else [];
    var newRequest := StoredRequest(id, date, "Complete", previewData);
    requests := [newRequest] + requests;
  }
}
