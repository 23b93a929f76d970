/** The support page of the web client: the file-name sanitiser applied before
    an attachment is uploaded, the validation of the ticket form's subject and
    description, the attachment picker with its type, size and count limits,
    and the ticket search. */
module Support {
  import opened Text
  import opened ListOps

  // ---------------------------------------------------------------------------
  // File names

  /** The characters a sanitised name may keep: `[A-Za-z0-9._-]`. */
  predicate NameChar(ch: char) {
    ('A' <= ch <= 'Z') || ('a' <= ch <= 'z') || ('0' <= ch <= '9') || ch == '.' || ch == '_' || ch == '-'
  }

  /** No two underscores in a row. */
  predicate NoDoubleUnderscore(s: string) {
    forall i :: 0 <= i < |s| - 1 ==> !(s[i] == '_' && s[i + 1] == '_')
  }

  /** A name the sanitiser could have produced. */
  predicate CleanName(s: string) {
    && 1 <= |s| <= 50
    && (forall i :: 0 <= i < |s| ==> NameChar(s[i]))
    && NoDoubleUnderscore(s)
  }

  /** `replace(/[^A-Za-z0-9._-]/g, "_")`. */
  function ReplaceOthers(s: string): (r: string)
    ensures |r| == |s|
    ensures forall i :: 0 <= i < |s| ==> r[i] == if NameChar(s[i]) then s[i] else '_'
  {
    seq(|s|, i requires 0 <= i < |s| => if NameChar(s[i]) then s[i] else '_')
  }

  /** `replace(/_+/g, "_")`: every run of underscores becomes one, by dropping
      each underscore that another underscore follows. */
  function CollapseUnderscores(s: string): (r: string)
    ensures |r| <= |s|
    ensures s != [] ==> r != [] && r[0] == s[0]
    ensures forall ch :: ch in r ==> ch in s
    ensures NoDoubleUnderscore(r)
    decreases |s|
  {
    if s == [] then []
    else if |s| >= 2 && s[0] == '_' && s[1] == '_' then CollapseUnderscores(s[1..])
    else [s[0]] + CollapseUnderscores(s[1..])
  }

  /** `name.slice(0, 50)`. */
  function Take50(s: string): (r: string)
    ensures r <= s && |r| == if |s| <= 50 then |s| else 50
  {
    if |s| <= 50 then s else s[..50]
  }

  /** `sanitizeFilename`: the text after the last `/` (or `file` when that is
      empty), other characters turned into `_`, underscore runs collapsed, cut
      to 50 characters. */
  function SanitizeFilename(filename: string): (r: string)
    ensures CleanName(r)
    ensures '/' !in r
  {
    var last := LastSegment(filename, '/');
    var name := if last == "" then "file" else last;
    var r := Take50(CollapseUnderscores(ReplaceOthers(name)));
    assert forall i :: 0 <= i < |r| ==> r[i] in CollapseUnderscores(ReplaceOthers(name));
    assert forall i :: 0 <= i < |r| - 1 ==> r[i] == CollapseUnderscores(ReplaceOthers(name))[i];
    r
  }

  // ---------------------------------------------------------------------------
  // Form fields

  /** The two text fields the handler validates, by element id. */
  datatype Field = Subject | Description

  function Id(field: Field): string {
    match field
    case Subject => "subject"
    case Description => "description"
  }

  /** The longest value a field accepts. */
  function MaxLength(field: Field): nat {
    if field == Subject then 50 else 500
  }

  /** JavaScript's `\s`: the ASCII blanks, the Unicode space separators, the
      line and paragraph separators and the byte-order mark. */
  predicate IsJsSpace(ch: char) {
    var n := ch as int;
    (9 <= n <= 13) || n == 32 || n == 0xA0 || n == 0x1680 || (0x2000 <= n <= 0x200A)
    || n == 0x2028 || n == 0x2029 || n == 0x202F || n == 0x205F || n == 0x3000 || n == 0xFEFF
  }

  /** The punctuation the form allows, and which may not repeat. */
  predicate Special(ch: char) {
    ch == '.' || ch == ',' || ch == '-'
  }

  /** `/^[a-zA-Z0-9\s.,-]*$/`. */
  predicate PlainText(s: string) {
    forall i :: 0 <= i < |s| ==>
      ('A' <= s[i] <= 'Z') || ('a' <= s[i] <= 'z') || ('0' <= s[i] <= '9') || IsJsSpace(s[i]) || Special(s[i])
  }

  /** `/[.,-]{2,}/` matches somewhere. */
  predicate DoubleSpecials(s: string) {
    exists i :: 0 <= i < |s| - 1 && Special(s[i]) && Special(s[i + 1])
  }

  const CharsetMessage := "Only letters, numbers, dash, space, comma, and dot are allowed."
  const RepeatMessage := "Avoid multiple special characters in a row."

  /** The length message: the id with its first letter upper-cased. */
  function TooLongMessage(field: Field): string {
    var id := Id(field);
    Upper(id[..1]) + id[1..] + " cannot exceed " + Decimal(MaxLength(field)) + " characters."
  }

  /** The error shown under a field for a value: length first, then the
      character set, then repeated punctuation; empty when all pass. */
  function FieldError(field: Field, value: string): (msg: string)
    ensures msg == "" <==> |value| <= MaxLength(field) && PlainText(value) && !DoubleSpecials(value)
    ensures |value| > MaxLength(field) ==> msg == TooLongMessage(field)
    ensures |value| <= MaxLength(field) && !PlainText(value) ==> msg == CharsetMessage
    ensures |value| <= MaxLength(field) && PlainText(value) && DoubleSpecials(value) ==> msg == RepeatMessage
  {
    if |value| > MaxLength(field) then TooLongMessage(field)
    else if !PlainText(value) then CharsetMessage
    else if DoubleSpecials(value) then RepeatMessage
    else ""
  }

  // ---------------------------------------------------------------------------
  // Attachments

  /** A picked file: its name, MIME type and size in bytes. */
  datatype Upload = Upload(name: string, mimeType: string, size: nat)

  const MaxFiles: nat := 2
  const MaxFileBytes: nat := 3 * 1024 * 1024

  /** A file the picker accepts on its own: PNG or JPEG, at most 3 MB. */
  predicate Acceptable(f: Upload) {
    (f.mimeType == "image/png" || f.mimeType == "image/jpeg") && f.size <= MaxFileBytes
  }

  /** The files the picker adds when `count` are already attached or accepted:
      unacceptable files are skipped, and the scan stops at the first acceptable
      file that would exceed the limit. */
  function Accepted(count: nat, files: seq<Upload>): (r: seq<Upload>)
    decreases |files|
  {
    if files == [] then []
    else if !Acceptable(files[0]) then Accepted(count, files[1..])
    else if count >= MaxFiles then []
    else [files[0]] + Accepted(count + 1, files[1..])
  }

  /** The acceptable files, in order. */
  function AcceptableOnly(files: seq<Upload>): (r: seq<Upload>)
    ensures |r| <= |files|
    ensures forall f :: f in r <==> f in files && Acceptable(f)
    decreases |files|
  {
    if files == [] then []
    else (if Acceptable(files[0]) then [files[0]] else []) + AcceptableOnly(files[1..])
  }

  /** How many more files fit beside `count`. */
  function Room(count: nat): nat {
    if count >= MaxFiles then 0 else MaxFiles - count
  }

  /** The picker's loop: skip (`continue`) unacceptable files, stop (`break`)
      once the attachments and accepted files reach the limit. */
  method FilterUploads(count: nat, files: seq<Upload>) returns (validFiles: seq<Upload>)
    ensures validFiles == Accepted(count, files)
  {
    validFiles := [];
    var i := 0;
    while i < |files|
      invariant i <= |files|
      invariant validFiles + Accepted(count + |validFiles|, files[i..]) == Accepted(count, files)
    {
      var file := files[i];
      assert files[i..][1..] == files[i + 1..];
      if !(file.mimeType == "image/png" || file.mimeType == "image/jpeg") {
        i := i + 1;
        continue;
      }
      if file.size > MaxFileBytes {
        i := i + 1;
        continue;
      }
      if count + |validFiles| >= MaxFiles {
        break;
      }
      validFiles := validFiles + [file];
      i := i + 1;
    }
  }

  // ---------------------------------------------------------------------------
  // Tickets

  datatype Ticket = Ticket(ticketId: string, subject: string, description: string, status: string)

  /** `filterTickets`: every ticket for an empty query, otherwise those whose
      subject contains the query, ignoring case. */
  predicate MatchesQuery(query: string, t: Ticket) {
    query == "" || Contains(Lower(t.subject), Lower(query))
  }

  /** `tickets.filter(filterTickets)`. */
  function FilterTickets(tickets: seq<Ticket>, query: string): (r: seq<Ticket>)
    ensures |r| <= |tickets|
    ensures forall t :: t in r <==> t in tickets && MatchesQuery(query, t)
    decreases |tickets|
  {
    if tickets == [] then []
    else (if MatchesQuery(query, tickets[0]) then [tickets[0]] else []) + FilterTickets(tickets[1..], query)
  }

  // ---------------------------------------------------------------------------
  // The page's form state

  class SupportForm {
    var subject: string
    var description: string
    var subjectError: string
    var descriptionError: string
    var attachments: seq<Upload>
    var uploading: seq<int>

    constructor ()
      ensures subject == "" && description == "" && subjectError == "" && descriptionError == ""
      ensures attachments == [] && uploading == []
    {
      subject, description := "", "";
      subjectError, descriptionError := "", "";
      attachments, uploading := [], [];
    }

    /** `handleInputChange`: store the value and set that field's error. */
    method HandleInputChange(field: Field, value: string)
      modifies this
      ensures field == Subject ==>
                subject == value && subjectError == FieldError(Subject, value)
                && description == old(description) && descriptionError == old(descriptionError)
      ensures field == Description ==>
                description == value && descriptionError == FieldError(Description, value)
                && subject == old(subject) && subjectError == old(subjectError)
      ensures attachments == old(attachments) && uploading == old(uploading)
    {
      var maxLength := if field == Subject then 50 else 500;
      var error;
      if |value| > maxLength {
        error := TooLongMessage(field);
      } else if !PlainText(value) {
        error := CharsetMessage;
      } else if DoubleSpecials(value) {
        error := RepeatMessage;
      } else {
        error := "";
      }
      if field == Subject {
        subject, subjectError := value, error;
      } else {
        description, descriptionError := value, error;
      }
    }

    /** `handleFileChange`: append the accepted files to the attachments. */
    method HandleFileChange(files: seq<Upload>)
      modifies this
      ensures attachments == old(attachments) + Accepted(|old(attachments)|, files)
      ensures subject == old(subject) && description == old(description)
      ensures subjectError == old(subjectError) && descriptionError == old(descriptionError)
      ensures uploading == old(uploading)
    {
      var validFiles := FilterUploads(|attachments|, files);
      attachments := attachments + validFiles;
    }

    /** `removeAttachment`: splice the attachment out and drop the upload
        marker at the same position. */
    method RemoveAttachment(index: int)
      modifies this
      ensures attachments == Spliced(old(attachments), index)
      ensures uploading == WithoutPosition(old(uploading), index)
      ensures subject == old(subject) && description == old(description)
      ensures subjectError == old(subjectError) && descriptionError == old(descriptionError)
    {
      attachments := Spliced(attachments, index);
      uploading := WithoutPosition(uploading, index);
    }
  }

  // ---------------------------------------------------------------------------
  // Properties

  /** Collapsing a string with no double underscore changes nothing. */
  lemma {:induction false} CollapseKeeps(s: string)
    requires NoDoubleUnderscore(s)
    ensures CollapseUnderscores(s) == s
    decreases |s|
  {
    if s != [] {
      CollapseKeeps(s[1..]);
      assert [s[0]] + s[1..] == s;
    }
  }

  /** Collapsing keeps the characters' class: every character of the result
      came from the input, and only underscores are dropped. */
  lemma {:induction false} CollapseDropsOnlyUnderscores(s: string)
    ensures Count(CollapseUnderscores(s), '_') <= Count(s, '_')
    ensures |s| - |CollapseUnderscores(s)| == Count(s, '_') - Count(CollapseUnderscores(s), '_')
    decreases |s|
  {
    if s != [] {
      CollapseDropsOnlyUnderscores(s[1..]);
      var r := CollapseUnderscores(s[1..]);
      if !(|s| >= 2 && s[0] == '_' && s[1] == '_') {
        assert ([s[0]] + r)[1..] == r;
      }
    }
  }

  /** Only the text after the last `/` reaches the result: a clean last segment
      comes through unchanged whatever precedes it. */
  lemma SanitizeKeepsCleanLastSegment(dir: string, name: string)
    requires CleanName(name)
    ensures SanitizeFilename(dir + "/" + name) == name
    ensures SanitizeFilename(name) == name
  {
    assert '/' !in name by {
      forall i | 0 <= i < |name| ensures name[i] != '/' { assert NameChar(name[i]); }
    }
    assert dir + "/" + name == dir + ['/'] + name;
    LastSegmentAfter(dir, '/', name);
    SanitizeCleanSegment(dir + "/" + name, name);
    SanitizeCleanSegment(name, name);
  }

  /** A file name whose last segment is clean and non-empty becomes that segment. */
  lemma SanitizeCleanSegment(filename: string, name: string)
    requires CleanName(name) && LastSegment(filename, '/') == name
    ensures SanitizeFilename(filename) == name
  {
    assert ReplaceOthers(name) == name;
    CollapseKeeps(name);
  }

  /** A file name whose last segment is empty becomes `file`. */
  lemma SanitizeEmptySegment(filename: string)
    requires LastSegment(filename, '/') == ""
    ensures SanitizeFilename(filename) == "file"
  {
    assert ReplaceOthers("file") == "file";
    assert NoDoubleUnderscore("file");
    CollapseKeeps("file");
  }

  /** A path ending in `/` (or the empty name) is uploaded as `file`. */
  lemma SanitizeEmptyLastSegment(dir: string)
    ensures SanitizeFilename(dir + "/") == "file"
    ensures SanitizeFilename("") == "file"
  {
    assert dir + "/" == dir + ['/'] + "";
    LastSegmentAfter(dir, '/', "");
    SanitizeEmptySegment(dir + "/");
    SanitizeEmptySegment("");
  }

  /** Sanitising a sanitised name changes nothing. */
  lemma SanitizeIdempotent(filename: string)
    ensures SanitizeFilename(SanitizeFilename(filename)) == SanitizeFilename(filename)
  {
    SanitizeKeepsCleanLastSegment("", SanitizeFilename(filename));
  }

  /** Every accepted file is acceptable and was picked. */
  lemma {:induction false} AcceptedAreAcceptable(count: nat, files: seq<Upload>)
    ensures forall f :: f in Accepted(count, files) ==> f in files && Acceptable(f)
    decreases |files|
  {
    if files != [] {
      AcceptedAreAcceptable(count + (if Acceptable(files[0]) then 1 else 0), files[1..]);
    }
  }

  /** The picker takes the first acceptable files, as many as there is room for. */
  lemma {:induction false} AcceptedIsFirstAcceptable(count: nat, files: seq<Upload>)
    ensures Accepted(count, files)
         == var ok := AcceptableOnly(files);
            if |ok| <= Room(count) then ok else ok[..Room(count)]
    decreases |files|
  {
    if files != [] {
      var rest := AcceptableOnly(files[1..]);
      if Acceptable(files[0]) {
        AcceptedIsFirstAcceptable(count + 1, files[1..]);
        assert AcceptableOnly(files) == [files[0]] + rest;
        if count < MaxFiles {
          TakeCons(files[0], rest, Room(count));
        }
      } else {
        AcceptedIsFirstAcceptable(count, files[1..]);
        assert AcceptableOnly(files) == rest;
      }
    }
  }

  /** Taking at most `n >= 1` elements of `x` followed by `rest` keeps `x` and
      takes at most `n - 1` of `rest`. */
  lemma TakeCons<T>(x: T, rest: seq<T>, n: nat)
    requires n >= 1
    ensures (if |[x] + rest| <= n then [x] + rest else ([x] + rest)[..n])
         == [x] + (if |rest| <= n - 1 then rest else rest[..n - 1])
  {
    if |rest| > n - 1 {
      assert ([x] + rest)[..n] == [x] + rest[..n - 1];
    }
  }

  /** The picker never takes the list beyond two attachments, or beyond its
      current length when that is already larger. */
  lemma AttachmentCap(count: nat, files: seq<Upload>)
    ensures count + |Accepted(count, files)| <= if count >= MaxFiles then count else MaxFiles
  {
    AcceptedIsFirstAcceptable(count, files);
  }

  /** Removing attachment `index` drops one attachment and, from the upload
      markers, the entry at position `index`: the filter goes by position, not
      by the attachment index a marker holds, just as the splice does. */
  lemma RemoveDropsMarkerAtPosition(attachments: seq<Upload>, uploading: seq<int>, index: int)
    requires 0 <= index < |attachments| && index < |uploading|
    ensures |Spliced(attachments, index)| == |attachments| - 1
    ensures |WithoutPosition(uploading, index)| == |uploading| - 1
    ensures WithoutPosition(uploading, index) == Spliced(uploading, index)
  {
    WithoutPositionIsSplice(uploading, index);
    SplicedRemovesAt(attachments, index);
  }

  /** The search ignores case: a query matches exactly when its lower-cased
      form does. */
  lemma QueryIgnoresCase(query: string, t: Ticket)
    ensures MatchesQuery(query, t) <==> MatchesQuery(Lower(query), t)
  {
    LowerIdempotent(query);
    if query != "" {
      assert Lower(query) != "";
    }
  }

  /** An empty query keeps every ticket, in order. */
  lemma {:induction false} EmptyQueryKeepsAll(tickets: seq<Ticket>)
    ensures FilterTickets(tickets, "") == tickets
    decreases |tickets|
  {
    if tickets != [] {
      EmptyQueryKeepsAll(tickets[1..]);
      assert [tickets[0]] + tickets[1..] == tickets;
    }
  }
}
