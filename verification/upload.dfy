/** Attachment ingestion: the MIME type inferred from the file name when the browser
    reports none, the 10 MiB size gate, the all-or-nothing batch read, and removing one
    pending attachment. Reading a file is an oracle that yields its data URL or fails. */
module Upload {
  import opened Wrappers
  import opened Text
  import opened Types
  import opened AppState

  /** A file picked by the user: its name, the type the browser reports ("" when it knows
      none) and its size in bytes. */
  datatype LocalFile = LocalFile(name: string, reportedType: string, size: int)

  const MaxUploadBytes := 10 * 1024 * 1024
  const OctetStream := "application/octet-stream"

  // ---------------------------------------------------------------------------
  // The extension

  /** `toLowerCase` on the letters A-Z. Other characters are kept; the extensions the
      table compares against are plain lower-case ASCII, and no other character lowers
      to one of their letters, so the comparisons come out as in the browser. */
  function LowerChar(c: char): char {
    if 'A' <= c <= 'Z' then (c as int + 32) as char else c
  }

  function Lower(s: string): (r: string)
    ensures |r| == |s| && forall i :: 0 <= i < |s| ==> r[i] == LowerChar(s[i])
  {
    if s == [] then [] else [LowerChar(s[0])] + Lower(s[1..])
  }

  /** The last piece of a split on dots. */
  function LastPiece(s: string): string {
    var pieces := Split(s, ".");
    pieces[|pieces| - 1]
  }

  /** `name.split('.').pop().toLowerCase()`. */
  function Extension(name: string): string {
    Lower(LastPiece(name))
  }

  lemma NoDotWhenAbsent(s: string)
    requires !Contains(s, ".")
    ensures forall j :: 0 <= j < |s| ==> s[j] != '.'
  {
    forall j | 0 <= j < |s|
      ensures s[j] != '.'
    {
      assert s[j..j + 1] == [s[j]];
      assert !OccursAt(s, ".", j);
    }
  }

  /** The text after the last dot: the last piece is a suffix without dots, preceded by a
      dot unless it is the whole text. */
  predicate AfterLastDot(s: string, r: string) {
    && |r| <= |s| && s[|s| - |r|..] == r
    && (forall j :: 0 <= j < |r| ==> r[j] != '.')
    && (|r| < |s| ==> s[|s| - |r| - 1] == '.')
  }

  /** Cutting at the first dot leaves the last piece unchanged. */
  lemma LastPieceAfterFirstDot(s: string, i: nat)
    requires IndexOf(s, ".") == Some(i)
    ensures i < |s| && s[i] == '.'
    ensures LastPiece(s) == LastPiece(s[i + 1..])
  {
    assert s[i..i + 1] == ".";
    var tail := Split(s[i + 1..], ".");
    assert Split(s, ".") == [s[..i]] + tail;
  }

  /** The text after the last dot of what follows a dot is the text after the last dot. */
  lemma AfterLastDotExtends(s: string, i: nat, r: string)
    requires i < |s| && s[i] == '.' && AfterLastDot(s[i + 1..], r)
    ensures AfterLastDot(s, r)
  {
    var rest := s[i + 1..];
    assert s[|s| - |r|..] == rest[|rest| - |r|..];
    if |r| < |rest| {
      assert s[|s| - |r| - 1] == rest[|rest| - |r| - 1];
    } else {
      assert |s| - |r| - 1 == i;
    }
  }

  lemma {:induction false} LastPieceIsAfterLastDot(s: string)
    ensures AfterLastDot(s, LastPiece(s))
    decreases |s|
  {
    var found := IndexOf(s, ".");
    if found.None? {
      NoDotWhenAbsent(s);
      assert LastPiece(s) == s;
    } else {
      var i := found.value;
      LastPieceAfterFirstDot(s, i);
      LastPieceIsAfterLastDot(s[i + 1..]);
      AfterLastDotExtends(s, i, LastPiece(s[i + 1..]));
    }
  }

  /** The extension is the lower-cased text after the last dot, and the whole lower-cased
      name when the name has no dot. */
  lemma ExtensionIsAfterLastDot(name: string)
    ensures exists r :: AfterLastDot(name, r) && Extension(name) == Lower(r)
    ensures (forall j :: 0 <= j < |name| ==> name[j] != '.') ==> Extension(name) == Lower(name)
  {
    LastPieceIsAfterLastDot(name);
    var r := LastPiece(name);
    assert AfterLastDot(name, r);
  }

  // ---------------------------------------------------------------------------
  // The MIME type

  /** The types assigned by extension when the browser reports none. */
  const MimeByExtension: map<string, string> := map[
    "md" := "text/markdown",
    "txt" := "text/plain",
    "csv" := "text/csv",
    "docx" := "application/vnd.openxmlformats-officedocument.wordprocessingml.document",
    "doc" := "application/msword",
    "pptx" := "application/vnd.openxmlformats-officedocument.presentationml.presentation",
    "ppt" := "application/vnd.ms-powerpoint"
  ]

  /** The type recorded for an uploaded file. */
  function InferMime(name: string, reported: string): (r: string)
    ensures r != []
    ensures reported == [] && Extension(name) in MimeByExtension ==> r == MimeByExtension[Extension(name)]
    ensures reported == [] && Extension(name) !in MimeByExtension ==> r == OctetStream
    ensures reported == "text/plain" && Extension(name) == "md" ==> r == "text/markdown"
    ensures reported != [] && !(reported == "text/plain" && Extension(name) == "md") ==> r == reported
  {
    var ext := Extension(name);
    var mime :=
      if reported == [] then
        if ext == "md" then "text/markdown"
        else if ext == "txt" then "text/plain"
        else if ext == "csv" then "text/csv"
        else if ext == "docx" then "application/vnd.openxmlformats-officedocument.wordprocessingml.document"
        else if ext == "doc" then "application/msword"
        else if ext == "pptx" then "application/vnd.openxmlformats-officedocument.presentationml.presentation"
        else if ext == "ppt" then "application/vnd.ms-powerpoint"
        else []
      else if ext == "md" && reported == "text/plain" then "text/markdown"
      else reported;
    if mime == [] then OctetStream else mime
  }

  // ---------------------------------------------------------------------------
  // Ingesting a batch

  /** The files within the size limit, in order. */
  function WithinLimit(files: seq<LocalFile>): (r: seq<LocalFile>)
    ensures |r| <= |files|
    ensures forall f :: f in r <==> f in files && f.size <= MaxUploadBytes
  {
    if files == [] then []
    else if files[0].size > MaxUploadBytes then WithinLimit(files[1..])
    else [files[0]] + WithinLimit(files[1..])
  }

  /** The filter commutes with concatenation: the files kept stay in the order they were
      picked. */
  lemma {:induction false} WithinLimitAppend(a: seq<LocalFile>, b: seq<LocalFile>)
    ensures WithinLimit(a + b) == WithinLimit(a) + WithinLimit(b)
  {
    if a != [] {
      assert (a + b)[1..] == a[1..] + b;
      WithinLimitAppend(a[1..], b);
    } else {
      assert a + b == b;
    }
  }

  /** A single file is kept exactly when it is within the limit. */
  lemma WithinLimitOne(f: LocalFile)
    ensures WithinLimit([f]) == (if f.size > MaxUploadBytes then [] else [f])
  {
  }

  /** The attachments made from files that were all read successfully. */
  function ToAttachments(files: seq<LocalFile>, read: LocalFile -> Option<string>): (r: seq<Attachment>)
    requires forall f :: f in files ==> read(f).Some?
    ensures |r| == |files|
    ensures forall i :: 0 <= i < |files| ==>
      r[i] == Attachment(files[i].name, InferMime(files[i].name, files[i].reportedType), read(files[i]).value)
  {
    if files == [] then []
    else [Attachment(files[0].name, InferMime(files[0].name, files[0].reportedType), read(files[0]).value)]
         + ToAttachments(files[1..], read)
  }

  /** `handleFileUpload`: oversized files are skipped; if reading any remaining file fails
      the whole batch is dropped and the pending list stays as it was; otherwise the new
      attachments follow the pending ones, in the order the files were picked. */
  function Ingest(st: AppState, files: seq<LocalFile>, read: LocalFile -> Option<string>): (r: AppState)
    ensures r == st.(pending := r.pending)
    ensures (exists f :: f in WithinLimit(files) && read(f).None?) ==> r == st
    ensures (forall f :: f in WithinLimit(files) ==> read(f).Some?) ==>
      r.pending == st.pending + ToAttachments(WithinLimit(files), read)
  {
    var accepted := WithinLimit(files);
    if exists f :: f in accepted && read(f).None? then st
    else st.(pending := st.pending + ToAttachments(accepted, read))
  }

  /** The limit is inclusive: a file of exactly 10 MiB is kept, one byte more is skipped. */
  lemma SizeGateBoundary(name: string, reported: string)
    ensures WithinLimit([LocalFile(name, reported, 10485760)]) == [LocalFile(name, reported, 10485760)]
    ensures WithinLimit([LocalFile(name, reported, 10485761)]) == []
  {
  }

  // ---------------------------------------------------------------------------
  // removeAttachment

  /** `prev.filter((_, i) => i !== index)`, counting positions from `offset`. */
  function DropIndex(p: seq<Attachment>, index: int, offset: int): (r: seq<Attachment>)
    decreases |p|
  {
    if p == [] then []
    else if offset == index then DropIndex(p[1..], index, offset + 1)
    else [p[0]] + DropIndex(p[1..], index, offset + 1)
  }

  /** Removing position `index` takes out exactly that attachment; an index outside the
      list changes nothing. */
  function RemoveAttachment(p: seq<Attachment>, index: int): (r: seq<Attachment>)
    ensures 0 <= index < |p| ==> r == p[..index] + p[index + 1..]
    ensures !(0 <= index < |p|) ==> r == p
  {
    if 0 <= index < |p| then
      DropIndexInside(p, index, 0);
      DropIndex(p, index, 0)
    else
      DropIndexOutside(p, index, 0);
      DropIndex(p, index, 0)
  }

  /** An index outside the list drops nothing. */
  lemma {:induction false} DropIndexOutside(p: seq<Attachment>, index: int, offset: int)
    requires !(offset <= index < offset + |p|)
    ensures DropIndex(p, index, offset) == p
    decreases |p|
  {
    if p != [] {
      DropIndexOutside(p[1..], index, offset + 1);
      assert p == [p[0]] + p[1..];
    }
  }

  /** An index inside the list drops exactly the element at that position. */
  lemma {:induction false} DropIndexInside(p: seq<Attachment>, index: int, offset: int)
    requires offset <= index < offset + |p|
    ensures DropIndex(p, index, offset) == p[..index - offset] + p[index - offset + 1..]
    decreases |p|
  {
    var k := index - offset;
    if k == 0 {
      DropIndexOutside(p[1..], index, offset + 1);
      assert p[..k] + p[k + 1..] == p[1..];
    } else {
      var tail := p[1..];
      var rest := DropIndex(tail, index, offset + 1);
      assert DropIndex(p, index, offset) == [p[0]] + rest;
      DropIndexInside(tail, index, offset + 1);
      assert tail[..k - 1] == p[1..k];
      assert tail[k..] == p[k + 1..];
      assert [p[0]] + p[1..k] == p[..k];
    }
  }
}
