/**
 * The request-side logic of claude_chat/app.py: classifying uploads by file
 * extension, the size and type gate of the chat endpoint, assembling the user
 * message and the list sent to the model, resolving the conversation id, and
 * the chat endpoint itself as a sequence of store operations.
 */
module App {
  import opened Seqs
  import opened Strings
  import opened Store
  import opened Utils

  datatype Option<T> = None | Some(value: T)

  // ---------------------------------------------------------------------------
  // Extensions and allow-lists

  const TextExtensions: set<string> := {
    ".txt", ".py", ".js", ".html", ".css", ".json", ".xml",
    ".md", ".csv", ".log", ".yml", ".yaml", ".sh", ".bash",
    ".env", ".conf", ".cfg", ".ini", ".sql", ".r", ".ruby",
    ".php", ".java", ".cpp", ".c", ".h", ".hpp", ".cs"
  }

  const ImageExtensions: set<string> := {".png", ".jpg", ".jpeg", ".gif", ".bmp", ".webp", ".tiff"}

  /** 10 MB. */
  const MaxFileSize: nat := 10 * 1024 * 1024

  /** Some character of `p[lo..hi]` is not a dot. */
  predicate SomeNonDot(p: string, lo: int, hi: int)
    requires 0 <= lo && hi <= |p|
  {
    exists k :: lo <= k < hi && p[k] != '.'
  }

  /** The extension part of `os.path.splitext` (POSIX): from the last dot of the
      last path component, unless that component is only dots up to it, as in
      a leading-dot name like `.env`. */
  function SplitExtension(p: string): (r: string)
    ensures |r| <= |p| && (r == "" || (r[0] == '.' && r == p[|p| - |r|..]))
    ensures forall k :: 0 < k < |r| ==> r[k] != '.' && r[k] != '/'
    ensures r != "" <==> LastIndexOf(p, '.') > LastIndexOf(p, '/') && SomeNonDot(p, LastIndexOf(p, '/') + 1, LastIndexOf(p, '.'))
  {
    var sep, dot := LastIndexOf(p, '/'), LastIndexOf(p, '.');
    if dot > sep && SomeNonDot(p, sep + 1, dot) then p[dot..] else ""
  }

  /** get_file_extension: the lower-cased extension, with its dot, or "". */
  function GetFileExtension(filename: string): (r: string)
    ensures r == Lower(SplitExtension(filename))
    ensures r == "" || r[0] == '.'
    ensures forall k :: 0 < k < |r| ==> r[k] != '.' && r[k] != '/'
    ensures |r| <= |filename| && r == Lower(filename[|filename| - |r|..])
  {
    var e := SplitExtension(filename);
    LowerKeepsExtensionShape(e);
    assert e == filename[|filename| - |e|..];
    Lower(e)
  }

  /** Lower-casing changes no dot or slash, so an extension stays one. */
  lemma LowerKeepsExtensionShape(e: string)
    requires e == "" || e[0] == '.'
    requires forall k :: 0 < k < |e| ==> e[k] != '.' && e[k] != '/'
    ensures var r := Lower(e); (r == "" || r[0] == '.') && forall k :: 0 < k < |r| ==> r[k] != '.' && r[k] != '/'
  {
  }

  /** is_allowed_file: the extension is on the list. Unless "" is listed, only a
      name with a dot can pass. */
  predicate IsAllowedFile(filename: string, allowed: set<string>)
    ensures IsAllowedFile(filename, allowed) && "" !in allowed ==> '.' in filename
  {
    var e := SplitExtension(filename);
    assert e != "" ==> e[0] == filename[|filename| - |e|];
    GetFileExtension(filename) in allowed
  }

  /** is_image_file: the test against the image list. */
  predicate IsImageFile(filename: string)
    ensures IsImageFile(filename) <==> IsAllowedFile(filename, ImageExtensions)
    ensures IsImageFile(filename) ==> '.' in filename
  {
    GetFileExtension(filename) in ImageExtensions
  }

  /** is_text_file: the test against the text list. */
  predicate IsTextFile(filename: string)
    ensures IsTextFile(filename) <==> IsAllowedFile(filename, TextExtensions)
    ensures IsTextFile(filename) ==> '.' in filename
  {
    GetFileExtension(filename) in TextExtensions
  }

  /** No extension is on both lists, so a file is at most one kind. */
  lemma FileKindsAreExclusive(filename: string)
    ensures !(IsImageFile(filename) && IsTextFile(filename))
    ensures IsAllowedFile(filename, ImageExtensions + TextExtensions) <==> IsImageFile(filename) || IsTextFile(filename)
  {
    forall e | e in ImageExtensions ensures e !in TextExtensions {
      // the length and the letter after the dot narrow the text extensions to compare with
      assert e[1] in "pjgbwt" && |e| >= 4;
    }
  }

  /** Extensions are matched regardless of case. */
  lemma UpperCaseImageAccepted()
    ensures GetFileExtension("photo.JPG") == ".jpg" && IsImageFile("photo.JPG")
  {
    assert "photo.JPG"[5] == '.' && "photo.JPG"[0] != '.';
    assert LastIndexOf("photo.JPG", '.') == 5;
    assert SplitExtension("photo.JPG") == ".JPG";
  }

  /** Only the last extension counts. */
  lemma DoubleExtensionUsesLast()
    ensures GetFileExtension("backup.tar.gz") == ".gz"
    ensures !IsImageFile("backup.tar.gz") && !IsTextFile("backup.tar.gz")
  {
    assert "backup.tar.gz"[10] == '.' && "backup.tar.gz"[0] != '.';
    assert LastIndexOf("backup.tar.gz", '.') == 10;
    assert SplitExtension("backup.tar.gz") == ".gz";
  }

  /** A file named exactly `.env` has no extension, so it is refused although
      `.env` is on the text list; a name such as `settings.env` is accepted. */
  lemma DotEnvNameHasNoExtension()
    ensures GetFileExtension(".env") == "" && !IsTextFile(".env") && !IsImageFile(".env")
  {
    assert ".env"[0] == '.';
    assert LastIndexOf(".env", '.') == 0;
  }

  lemma NamedEnvFileAccepted()
    ensures GetFileExtension("settings.env") == ".env" && IsTextFile("settings.env")
  {
    assert "settings.env"[8] == '.' && "settings.env"[0] != '.';
    assert LastIndexOf("settings.env", '.') == 8;
    assert SplitExtension("settings.env") == ".env";
  }

  // ---------------------------------------------------------------------------
  // The upload gate of the chat endpoint

  /** What process_image makes of an upload: base64 JPEG data, or the text of the
      exception it raised. */
  datatype ImageOutcome = Encoded(data: string) | Undecodable(reason: string)

  /** One entry of `attachments[]`: its name, its size in bytes, its content
      decoded as text, and what image processing makes of it. */
  datatype Upload = Upload(filename: string, size: nat, text: string, image: ImageOutcome)

  /** An entry of `processed_files`. `extension` has no leading dot. */
  datatype Attachment =
    | TextFile(filename: string, extension: string, content: string)
    | ImageFile(data: string)

  /** Why the gate refused the request. */
  datatype UploadError = TooLarge(filename: string) | Unsupported(filename: string) | ImageFailed(reason: string)

  datatype GateResult = Accepted(attachments: seq<Attachment>) | Rejected(error: UploadError)

  /** Running the gate over `a` and then `b`: the first rejection wins, and the
      accepted attachments keep upload order. */
  function Combine(a: GateResult, b: GateResult): GateResult {
    match a
    case Rejected(_) => a
    case Accepted(x) => match b
      case Rejected(_) => b
      case Accepted(y) => Accepted(x + y)
  }

  /** The checks on one upload, in the order the endpoint applies them: an upload
      without a name is skipped, size comes before type, images before text. */
  function Admit(f: Upload): (r: GateResult)
    ensures r.Rejected? ==> f.filename != ""
    ensures r.Accepted? ==> |r.attachments| <= 1
  {
    if f.filename == "" then Accepted([])
    else if f.size > MaxFileSize then Rejected(TooLarge(f.filename))
    else if IsImageFile(f.filename) then
      match f.image
      case Encoded(data) => Accepted([ImageFile(data)])
      case Undecodable(reason) => Rejected(ImageFailed(reason))
    else if IsTextFile(f.filename) then
      Accepted([TextFile(f.filename, DropFirst(GetFileExtension(f.filename)), f.text)])
    else Rejected(Unsupported(f.filename))
  }

  /** An upload is skipped exactly when it has no name; it is refused exactly when it
      is too large, has an extension on neither list, or is an image that cannot be
      decoded; otherwise it yields one attachment of its kind. */
  lemma AdmitVerdicts(f: Upload)
    ensures Admit(f) == Accepted([]) <==> f.filename == ""
    ensures Admit(f).Rejected? <==>
      && f.filename != ""
      && (|| f.size > MaxFileSize
          || !IsAllowedFile(f.filename, ImageExtensions + TextExtensions)
          || (IsImageFile(f.filename) && f.image.Undecodable?))
    ensures Admit(f).Accepted? && f.filename != "" ==>
      |Admit(f).attachments| == 1 && (Admit(f).attachments[0].ImageFile? <==> IsImageFile(f.filename))
  {
    FileKindsAreExclusive(f.filename);
  }

  /** `s[1:]`: the string without its first character ("" stays ""). */
  function DropFirst(s: string): (r: string)
    ensures s != "" ==> s == [s[0]] + r
    ensures s == "" ==> r == ""
  {
    if s == "" then "" else s[1..]
  }

  /** The upload loop as a whole. */
  function Gate(files: seq<Upload>): (r: GateResult)
    ensures r.Accepted? ==> |r.attachments| <= |files|
    decreases |files|
  {
    if files == [] then Accepted([]) else Combine(Admit(files[0]), Gate(files[1..]))
  }

  lemma CombineAssociative(a: GateResult, b: GateResult, c: GateResult)
    ensures Combine(Combine(a, b), c) == Combine(a, Combine(b, c))
  {
  }

  /** The gate over two batches is the two gates combined: results keep upload order. */
  lemma {:induction false} GateConcat(a: seq<Upload>, b: seq<Upload>)
    ensures Gate(a + b) == Combine(Gate(a), Gate(b))
    decreases |a|
  {
    if a == [] {
      assert a + b == b;
      match Gate(b)
      case Accepted(y) => assert [] + y == y;
      case Rejected(_) =>
    } else {
      assert (a + b)[0] == a[0] && (a + b)[1..] == a[1..] + b;
      GateConcat(a[1..], b);
      CombineAssociative(Admit(a[0]), Gate(a[1..]), Gate(b));
    }
  }

  /** The request is rejected exactly when some upload is rejected. */
  lemma {:induction false} GateRejectsIff(files: seq<Upload>)
    ensures Gate(files).Rejected? <==> exists i :: 0 <= i < |files| && Admit(files[i]).Rejected?
    decreases |files|
  {
    if files != [] {
      var rest := files[1..];
      GateRejectsIff(rest);
      forall i | 0 < i < |files| ensures files[i] == rest[i - 1] { }
      if exists i :: 0 <= i < |rest| && Admit(rest[i]).Rejected? {
        var i :| 0 <= i < |rest| && Admit(rest[i]).Rejected?;
        assert Admit(files[i + 1]).Rejected?;
      }
    }
  }

  /** A rejected request carries the error of the first refused upload; every
      upload before it was accepted or skipped. */
  lemma {:induction false} GateRejectionIsFirst(files: seq<Upload>)
    ensures Gate(files).Rejected? ==>
      exists i :: 0 <= i < |files| && Admit(files[i]) == Gate(files) && forall j :: 0 <= j < i ==> Admit(files[j]).Accepted?
    decreases |files|
  {
    if files != [] {
      var rest := files[1..];
      GateRejectionIsFirst(rest);
      if Admit(files[0]).Rejected? {
        assert Admit(files[0]) == Gate(files);
      } else if Gate(rest).Rejected? {
        var i :| 0 <= i < |rest| && Admit(rest[i]) == Gate(rest) && forall j :: 0 <= j < i ==> Admit(rest[j]).Accepted?;
        assert files[i + 1] == rest[i];
        forall j | 0 < j < i + 1 ensures Admit(files[j]).Accepted? {
          assert files[j] == rest[j - 1];
        }
      }
    }
  }

  /** An admitted upload yields one attachment, a skipped one none. */
  lemma AdmitCount(f: Upload)
    ensures Admit(f).Accepted? ==> |Admit(f).attachments| == if Named(f) then 1 else 0
  {
  }

  /** `if file and file.filename`: the upload has a name. */
  predicate Named(f: Upload) {
    f.filename != ""
  }

  /** On acceptance there is one attachment per named upload. */
  lemma {:induction false} GateAttachmentCount(files: seq<Upload>)
    ensures Gate(files).Accepted? ==> |Gate(files).attachments| == |Filter(files, Named)|
    decreases |files|
  {
    if files != [] {
      var last := files[|files| - 1];
      var init := files[..|files| - 1];
      assert files == init + [last];
      var g, v := Gate(init), Admit(last);
      assert Gate(files) == Combine(g, v) by {
        GateConcat(init, [last]);
        assert Gate([last]) == Combine(v, Accepted([]));
        assert Combine(v, Accepted([])) == v by {
          if v.Accepted? {
            assert v.attachments + [] == v.attachments;
          }
        }
      }
      assert |Filter(files, Named)| == |Filter(init, Named)| + (if Named(last) then 1 else 0) by {
        FilterSnoc(init, last, Named);
      }
      GateAttachmentCount(init);
      AdmitCount(last);
      if Gate(files).Accepted? {
        assert g.Accepted? && v.Accepted? && Gate(files).attachments == g.attachments + v.attachments;
      }
    }
  }

  /** The upload loop of the chat endpoint: returns at the first refused upload,
      otherwise collects the processed files in upload order. */
  method ProcessUploads(files: seq<Upload>) returns (r: GateResult)
    ensures r == Gate(files)
  {
    var processed: seq<Attachment> := [];
    var i := 0;
    while i < |files|
      invariant 0 <= i <= |files|
      invariant Gate(files) == Combine(Accepted(processed), Gate(files[i..]))
    {
      var f := files[i];
      ghost var v, rest := Admit(f), Gate(files[i + 1..]);
      assert Gate(files) == Combine(Combine(Accepted(processed), v), rest) by {
        assert files[i..][0] == f && files[i..][1..] == files[i + 1..];
        assert Gate(files[i..]) == Combine(v, rest);
        CombineAssociative(Accepted(processed), v, rest);
      }
      if f.filename != "" {
        if f.size > MaxFileSize {
          assert v == Rejected(TooLarge(f.filename));
          return Rejected(TooLarge(f.filename));
        }
        if IsImageFile(f.filename) {
          match f.image
          case Undecodable(reason) =>
            assert v == Rejected(ImageFailed(reason));
            return Rejected(ImageFailed(reason));
          case Encoded(data) =>
            assert v == Accepted([ImageFile(data)]);
            processed := processed + [ImageFile(data)];
        } else if IsTextFile(f.filename) {
          var a := TextFile(f.filename, DropFirst(GetFileExtension(f.filename)), f.text);
          assert v == Accepted([a]);
          processed := processed + [a];
        } else {
          assert v == Rejected(Unsupported(f.filename));
          return Rejected(Unsupported(f.filename));
        }
      } else {
        assert v == Accepted([]) && processed + [] == processed;
      }
      i := i + 1;
    }
    assert files[i..] == [];
    assert processed + [] == processed;
    r := Accepted(processed);
  }

  // ---------------------------------------------------------------------------
  // The user message

  /** The block one attachment adds to the user message; images add nothing. */
  function FileBlock(a: Attachment): (r: string)
    ensures r == "" <==> a.ImageFile?
  {
    match a
    case TextFile(filename, extension, content) =>
      "\nFile: " + filename + "\n```" + extension + "\n" + content + "\n```\n"
    case ImageFile(_) => ""
  }

  /** The blocks of all attachments, in upload order. */
  function TextBlocks(atts: seq<Attachment>): string {
    ConcatMap(atts, FileBlock)
  }

  /** Each text file's block sits in the message between the blocks of the files
      uploaded before it and those uploaded after it. */
  lemma TextBlocksSplit(atts: seq<Attachment>, i: nat)
    requires i < |atts|
    ensures TextBlocks(atts) == TextBlocks(atts[..i]) + FileBlock(atts[i]) + TextBlocks(atts[i + 1..])
  {
    assert atts == atts[..i] + [atts[i]] + atts[i + 1..];
    ConcatMapAppend(atts[..i] + [atts[i]], atts[i + 1..], FileBlock);
    ConcatMapSnoc(atts[..i], atts[i], FileBlock);
  }

  predicate IsText(a: Attachment) {
    a.TextFile?
  }

  /** Images contribute nothing: the blocks are those of the text files alone. */
  lemma TextBlocksIgnoreImages(atts: seq<Attachment>)
    ensures TextBlocks(atts) == TextBlocks(Filter(atts, IsText))
  {
    ConcatMapFilter(atts, FileBlock, IsText);
  }

  /** The assembly of `full_message`: the typed message followed by one block per
      text file, in upload order. */
  method BuildFullMessage(message: string, atts: seq<Attachment>) returns (full: string)
    ensures full == message + TextBlocks(atts)
  {
    full := message;
    for i := 0 to |atts|
      invariant full == message + TextBlocks(atts[..i])
    {
      assert message + TextBlocks(atts[..i + 1]) == full + FileBlock(atts[i]) by {
        assert atts[..i + 1] == atts[..i] + [atts[i]];
        ConcatMapSnoc(atts[..i], atts[i], FileBlock);
      }
      match atts[i]
      case TextFile(filename, extension, content) =>
        var block := "\nFile: " + filename + "\n```" + extension + "\n" + content + "\n```\n";
        assert block == FileBlock(atts[i]);
        full := full + block;
      case ImageFile(_) =>
        assert full + FileBlock(atts[i]) == full;
    }
    assert atts[..|atts|] == atts;
  }

  // ---------------------------------------------------------------------------
  // The list sent to the model

  predicate IsImage(a: Attachment) {
    a.ImageFile?
  }

  /** The image attachments, in upload order. */
  function Images(atts: seq<Attachment>): (r: seq<Attachment>)
    ensures forall k :: 0 <= k < |r| ==> r[k].ImageFile?
  {
    var r := Filter(atts, IsImage);
    assert forall k :: 0 <= k < |r| ==> r[k] in r;
    r
  }

  /** `out` is the (role, content) projection of `history`, in order, followed by
      one user entry per image in upload order. */
  ghost predicate IsRequestFor(out: seq<ApiMessage>, history: seq<Message>, atts: seq<Attachment>) {
    var images := Images(atts);
    && |out| == |history| + |images|
    && (forall i :: 0 <= i < |history| ==> out[i] == ApiMessage(history[i].role, history[i].content))
    && forall k :: 0 <= k < |images| ==> out[|history| + k] == ApiMessage("user", "<image>" + images[k].data + "</image>")
  }

  /** The shape fixes the list. */
  lemma RequestIsDetermined(a: seq<ApiMessage>, b: seq<ApiMessage>, history: seq<Message>, atts: seq<Attachment>)
    requires IsRequestFor(a, history, atts) && IsRequestFor(b, history, atts)
    ensures a == b
  {
    var n := |history|;
    forall i | 0 <= i < |a| ensures a[i] == b[i] {
      if i >= n {
        var images, k := Images(atts), i - n;
        assert a[n + k] == ApiMessage("user", "<image>" + images[k].data + "</image>");
        assert b[n + k] == ApiMessage("user", "<image>" + images[k].data + "</image>");
      }
    }
  }

  /** The assembly of `claude_messages`. */
  method BuildApiMessages(history: seq<Message>, atts: seq<Attachment>) returns (out: seq<ApiMessage>)
    ensures IsRequestFor(out, history, atts)
  {
    out := seq(|history|, i requires 0 <= i < |history| => ApiMessage(history[i].role, history[i].content));
    var images := Images(atts);
    for k := 0 to |images|
      invariant |out| == |history| + k
      invariant forall i :: 0 <= i < |history| ==> out[i] == ApiMessage(history[i].role, history[i].content)
      invariant forall j :: 0 <= j < k ==> out[|history| + j] == ApiMessage("user", "<image>" + images[j].data + "</image>")
    {
      out := out + [ApiMessage("user", "<image>" + images[k].data + "</image>")];
    }
  }

  // ---------------------------------------------------------------------------
  // Conversation id

  datatype Resolution = CreateNew | Existing(id: nat) | InvalidId

  /** `any(str(conv['id']) == conversation_id for conv in conversations)`. */
  predicate NamesConversation(active: seq<Conversation>, s: string)
    ensures NamesConversation(active, s) ==> s != "" && s != "null" && forall i :: 0 <= i < |s| ==> IsDigit(s[i])
  {
    exists c :: c in active && NatToString(c.id) == s
  }

  lemma DecimalIdText(active: seq<Conversation>, s: string)
    requires NamesConversation(active, s)
    ensures forall i :: 0 <= i < |s| ==> IsDigit(s[i])
    ensures NatToString(ParseNat(s)) == s && exists c :: c in active && c.id == ParseNat(s)
  {
    var c :| c in active && NatToString(c.id) == s;
    ParseNatToString(c.id);
  }

  /** The conversation the chat endpoint works on: a new one when no id, an empty
      id or the text "null" is sent; otherwise the id must be the decimal text of
      an active conversation's id. */
  function ResolveConversation(param: Option<string>, active: seq<Conversation>): (r: Resolution)
    ensures r == CreateNew <==> param == None || param.value == "" || param.value == "null"
    ensures r == InvalidId <==>
      param.Some? && param.value != "" && param.value != "null" && !NamesConversation(active, param.value)
    ensures r.Existing? ==> param.Some? && NatToString(r.id) == param.value
    ensures r.Existing? ==> exists c :: c in active && c.id == r.id
  {
    if param == None || param.value == "" || param.value == "null" then CreateNew
    else if NamesConversation(active, param.value) then
      DecimalIdText(active, param.value);
      Existing(ParseNat(param.value))
    else InvalidId
  }

  /** Sending the id of an active conversation selects that conversation. */
  lemma ResolveActiveConversation(cs: seq<Conversation>, c: Conversation)
    requires c in cs && !c.archived
    ensures ResolveConversation(Some(NatToString(c.id)), ActiveConversations(cs)) == Existing(c.id)
  {
    var active := ActiveConversations(cs);
    var s := NatToString(c.id);
    assert NamesConversation(active, s) by {
      assert multiset(active)[c] > 0;
    }
    assert s != "" && s != "null" by {
      assert s[0] != 'n';
    }
    ParseNatToString(c.id);
  }

  /** The id of an archived conversation is refused, as is one no row has. */
  lemma ResolveHiddenConversation(cs: seq<Conversation>, id: nat)
    requires forall c :: c in cs && c.id == id ==> c.archived
    ensures ResolveConversation(Some(NatToString(id)), ActiveConversations(cs)) == InvalidId
  {
    var active := ActiveConversations(cs);
    var s := NatToString(id);
    assert s != "" && s != "null" by {
      assert s[0] != 'n';
    }
    assert !NamesConversation(active, s) by {
      forall d | d in active ensures NatToString(d.id) != s {
        assert multiset(active)[d] > 0;
        NatToStringInjective(d.id, id);
      }
    }
  }

  /** The id is compared as text, so a leading zero makes it unknown. */
  lemma LeadingZeroIsInvalid(active: seq<Conversation>)
    ensures ResolveConversation(Some("07"), active) == InvalidId
  {
    forall c | c in active ensures NatToString(c.id) != "07" {
      if c.id == 0 {
        assert NatToString(0) == "0";
      }
    }
  }

  // ---------------------------------------------------------------------------
  // The chat endpoint

  /** What the model client did with the request: answered with a text, or raised. */
  datatype Upstream = Reply(text: string) | Raised(error: string)

  /** The JSON the endpoint answers with: the reply and the conversation id, a 400
      with an error text, or a 500 with the formatted exception. */
  datatype ChatResponse = Replied(response: string, conversationId: nat) | BadRequest(error: string) | ServerError(error: string)

  const InvalidConversationId: string := "Invalid conversation ID"

  /** The answer to a refused upload: a 400 for size and type, and the exception of
      image processing as a 500. */
  function RejectionResponse(e: UploadError): (r: ChatResponse)
    ensures r.BadRequest? <==> !e.ImageFailed?
    ensures r != BadRequest(InvalidConversationId)
  {
    match e
    case TooLarge(filename) => BadRequest("File " + filename + " exceeds maximum size of 10MB")
    case Unsupported(filename) => BadRequest("File " + filename + " is not a supported file type")
    case ImageFailed(reason) => ServerError(FormatErrorMessage(reason))
  }

  /** The conversation a request that passed resolution writes to. */
  function TargetConversation(res: Resolution, conversationSeq: nat): nat {
    if res.Existing? then res.id else conversationSeq + 1
  }

  /** How a request on an existing conversation `cid` is answered, from the store
      `before` to the store `after`: a refused upload changes nothing; otherwise
      add_message stores the user message (at `now`), the request holds its history
      and the images, an exception of the model client becomes a 500 and leaves the
      store as the user message left it, and a reply is answered and stored with
      add_message as the assistant message (at `replyTime`). */
  ghost predicate Answered(resp: ChatResponse, request: seq<ApiMessage>, before: Tables, after: Tables, cid: nat,
                           message: string, files: seq<Upload>, now: int, replyTime: int,
                           upstream: seq<ApiMessage> -> Upstream)
  {
    match Gate(files)
    case Rejected(error) =>
      resp == RejectionResponse(error) && request == [] && after == before
    case Accepted(atts) =>
      var staged := StoreMessage(before, cid, "user", message + TextBlocks(atts), now);
      && IsRequestFor(request, ConversationMessages(staged.messages, cid), atts)
      && match upstream(request)
         case Raised(error) => resp == ServerError(FormatErrorMessage(error)) && after == staged
         case Reply(text) => resp == Replied(text, cid) && after == StoreMessage(staged, cid, "assistant", text, replyTime)
  }

  /** `Answered` for a request whose uploads are refused. */
  lemma RefusedIsAnswered(resp: ChatResponse, request: seq<ApiMessage>, before: Tables, cid: nat, message: string,
                          files: seq<Upload>, now: int, replyTime: int, upstream: seq<ApiMessage> -> Upstream)
    requires Gate(files).Rejected? && resp == RejectionResponse(Gate(files).error) && request == []
    ensures Answered(resp, request, before, before, cid, message, files, now, replyTime, upstream)
  {
  }

  /** `Answered` for a request whose uploads pass, from its three steps. */
  lemma AcceptedIsAnswered(resp: ChatResponse, request: seq<ApiMessage>, before: Tables, staged: Tables, after: Tables,
                           cid: nat, message: string, files: seq<Upload>, now: int, replyTime: int,
                           upstream: seq<ApiMessage> -> Upstream)
    requires Gate(files).Accepted?
    requires staged == StoreMessage(before, cid, "user", message + TextBlocks(Gate(files).attachments), now)
    requires IsRequestFor(request, ConversationMessages(staged.messages, cid), Gate(files).attachments)
    requires upstream(request).Raised? ==> resp == ServerError(FormatErrorMessage(upstream(request).error)) && after == staged
    requires upstream(request).Reply? ==>
      resp == Replied(upstream(request).text, cid) && after == StoreMessage(staged, cid, "assistant", upstream(request).text, replyTime)
    ensures Answered(resp, request, before, after, cid, message, files, now, replyTime, upstream)
  {
  }

  /** A 400 answer is given before add_message: nothing is stored. */
  lemma BadRequestStoresNothing(resp: ChatResponse, request: seq<ApiMessage>, before: Tables, after: Tables, cid: nat,
                                message: string, files: seq<Upload>, now: int, replyTime: int,
                                upstream: seq<ApiMessage> -> Upstream)
    requires Answered(resp, request, before, after, cid, message, files, now, replyTime, upstream)
    ensures resp.BadRequest? ==> after == before && Gate(files).Rejected?
    ensures resp != BadRequest(InvalidConversationId)
  {
  }

  /** The store after an accepted request, step by step. */
  lemma AcceptedSteps(resp: ChatResponse, request: seq<ApiMessage>, before: Tables, after: Tables, cid: nat,
                      message: string, files: seq<Upload>, now: int, replyTime: int,
                      upstream: seq<ApiMessage> -> Upstream)
    requires Answered(resp, request, before, after, cid, message, files, now, replyTime, upstream)
    requires Gate(files).Accepted?
    ensures var staged := StoreMessage(before, cid, "user", message + TextBlocks(Gate(files).attachments), now);
      after == match upstream(request)
               case Raised(_) => staged
               case Reply(text) => StoreMessage(staged, cid, "assistant", text, replyTime)
  {
  }

  /** Once the uploads pass, the user message is stored (or already was) before
      the model is called, and the rows added belong to this conversation. */
  lemma UserMessageStoredFirst(resp: ChatResponse, request: seq<ApiMessage>, before: Tables, after: Tables, cid: nat,
                               message: string, files: seq<Upload>, now: int, replyTime: int,
                               upstream: seq<ApiMessage> -> Upstream)
    requires Answered(resp, request, before, after, cid, message, files, now, replyTime, upstream)
    requires Gate(files).Accepted?
    ensures HasCopy(after.messages, cid, "user", message + TextBlocks(Gate(files).attachments))
    ensures before.messages <= after.messages && |after.messages| <= |before.messages| + 2
    ensures forall i :: |before.messages| <= i < |after.messages| ==> after.messages[i].conversationId == cid
  {
    var full := message + TextBlocks(Gate(files).attachments);
    var staged := StoreMessage(before, cid, "user", full, now);
    AcceptedSteps(resp, request, before, after, cid, message, files, now, replyTime, upstream);
    if upstream(request).Reply? {
      StoreTwoMessages(before, cid, "user", full, now, "assistant", upstream(request).text, replyTime);
    } else {
      StoreMessageGrows(before, cid, "user", full, now);
    }
  }

  /** A request changes no conversation row but its own, and there only updated_at,
      which becomes the time of the user message or of the reply; no conversation
      is created. */
  lemma OnlyTargetTouched(resp: ChatResponse, request: seq<ApiMessage>, before: Tables, after: Tables, cid: nat,
                          message: string, files: seq<Upload>, now: int, replyTime: int,
                          upstream: seq<ApiMessage> -> Upstream)
    requires Answered(resp, request, before, after, cid, message, files, now, replyTime, upstream)
    ensures after.conversationSeq == before.conversationSeq
    ensures StampedOnly(before.conversations, after.conversations, cid, {now, replyTime})
  {
    match Gate(files)
    case Rejected(_) =>
      StampedOnlyCompose(before.conversations, before.conversations, before.conversations, cid, {}, {now, replyTime});
    case Accepted(atts) =>
      var staged := StoreMessage(before, cid, "user", message + TextBlocks(atts), now);
      StoreMessageStampsOnly(before, cid, "user", message + TextBlocks(atts), now);
      match upstream(request)
      case Raised(_) =>
        StampedOnlyCompose(before.conversations, staged.conversations, staged.conversations, cid, {now}, {replyTime});
      case Reply(text) =>
        StoreMessageStampsOnly(staged, cid, "assistant", text, replyTime);
        StampedOnlyCompose(before.conversations, staged.conversations, after.conversations, cid, {now}, {replyTime});
  }

  /** When the model client raises, the answer is a 500 and no assistant row is stored. */
  lemma FailedCallStoresNoReply(resp: ChatResponse, request: seq<ApiMessage>, before: Tables, after: Tables, cid: nat,
                                message: string, files: seq<Upload>, now: int, replyTime: int,
                                upstream: seq<ApiMessage> -> Upstream)
    requires Answered(resp, request, before, after, cid, message, files, now, replyTime, upstream)
    requires Gate(files).Accepted? && upstream(request).Raised?
    ensures resp == ServerError(FormatErrorMessage(upstream(request).error))
    ensures after.messageSeq <= before.messageSeq + 1 && |after.messages| <= |before.messages| + 1
    ensures forall i :: |before.messages| <= i < |after.messages| ==> after.messages[i].role == "user"
  {
    var staged := StoreMessage(before, cid, "user", message + TextBlocks(Gate(files).attachments), now);
    assert after == staged by {
      AcceptedSteps(resp, request, before, after, cid, message, files, now, replyTime, upstream);
    }
    StoreMessageGrows(before, cid, "user", message + TextBlocks(Gate(files).attachments), now);
  }

  /** When the model replies, its text is the answer and is stored as an assistant row. */
  lemma ReplyIsStored(resp: ChatResponse, request: seq<ApiMessage>, before: Tables, after: Tables, cid: nat,
                      message: string, files: seq<Upload>, now: int, replyTime: int,
                      upstream: seq<ApiMessage> -> Upstream)
    requires Answered(resp, request, before, after, cid, message, files, now, replyTime, upstream)
    requires Gate(files).Accepted? && upstream(request).Reply?
    ensures resp == Replied(upstream(request).text, cid)
    ensures HasCopy(after.messages, cid, "assistant", upstream(request).text)
  {
  }

  /** A reply the conversation does not hold yet becomes its newest row, with the
      latest id, and the conversation's updated_at is the reply time. */
  lemma NewReplyStampsConversation(resp: ChatResponse, request: seq<ApiMessage>, before: Tables, after: Tables, cid: nat,
                                   message: string, files: seq<Upload>, now: int, replyTime: int,
                                   upstream: seq<ApiMessage> -> Upstream)
    requires Answered(resp, request, before, after, cid, message, files, now, replyTime, upstream)
    requires Gate(files).Accepted? && upstream(request).Reply?
    requires !HasCopy(before.messages, cid, "assistant", upstream(request).text)
    ensures |after.messages| > 0
    ensures after.messages[|after.messages| - 1] == Message(after.messageSeq, cid, "assistant", upstream(request).text, replyTime)
    ensures forall c :: c in after.conversations && c.id == cid ==> c.updatedAt == replyTime
  {
    var text := upstream(request).text;
    var full := message + TextBlocks(Gate(files).attachments);
    var staged := StoreMessage(before, cid, "user", full, now);
    AcceptedSteps(resp, request, before, after, cid, message, files, now, replyTime, upstream);
    StoreMessageKeepsOtherCopies(before, cid, "user", full, now, "assistant", text);
    NewRowStampsConversation(staged, cid, "assistant", text, replyTime);
  }

  /** The request the model receives contains the message just sent. */
  lemma RequestCarriesUserMessage(history: seq<Message>, staged: seq<Message>, cid: nat, full: string,
                                  request: seq<ApiMessage>, atts: seq<Attachment>)
    requires HasCopy(staged, cid, "user", full)
    requires IsRequestFor(request, ConversationMessages(staged, cid), atts)
    ensures exists i :: 0 <= i < |request| && request[i] == ApiMessage("user", full)
  {
    var m :| m in staged && m.conversationId == cid && m.role == "user" && m.content == full;
    EveryPairHasLatestCopy(staged, cid, m);
    var h := ConversationMessages(staged, cid);
    var k :| k in h && k.role == "user" && k.content == full;
    var i :| 0 <= i < |h| && h[i] == k;
    assert request[i] == ApiMessage("user", full);
  }

  /** The part of the chat endpoint after the conversation is known to exist:
      the upload gate, the user message, the model call and the reply. */
  method Respond(db: Database, cid: nat, message: string, files: seq<Upload>, now: int, replyTime: int,
                 upstream: seq<ApiMessage> -> Upstream)
    returns (resp: ChatResponse, request: seq<ApiMessage>)
    requires db.Valid() && HasConversation(db.conversations, cid)
    modifies db
    ensures db.Valid()
    ensures old(db.NoOrphans()) ==> db.NoOrphans()
    ensures Gate(files).Rejected? ==> unchanged(db)
    ensures Answered(resp, request, old(db.State()), db.State(), cid, message, files, now, replyTime, upstream)
  {
    var gate := ProcessUploads(files);
    if gate.Rejected? {
      resp, request := RejectionResponse(gate.error), [];
      RefusedIsAnswered(resp, request, db.State(), cid, message, files, now, replyTime, upstream);
      return;
    }
    var atts := gate.attachments;
    var full := BuildFullMessage(message, atts);
    ghost var before := db.State();
    assert before == old(db.State());
    assert full == message + TextBlocks(atts);
    var added := db.AddMessage(cid, "user", full, now);
    ghost var staged := db.State();
    assert staged == StoreMessage(before, cid, "user", full, now);
    var history := ConversationMessages(db.messages, cid);
    request := BuildApiMessages(history, atts);
    assert IsRequestFor(request, ConversationMessages(staged.messages, cid), atts);
    resp := Relay(db, cid, request, replyTime, upstream);
    AcceptedIsAnswered(resp, request, before, staged, db.State(), cid, message, files, now, replyTime, upstream);
  }

  /** The model call and the assistant message: a raised exception becomes a 500
      and changes nothing; a reply is stored with add_message and returned. */
  method Relay(db: Database, cid: nat, request: seq<ApiMessage>, replyTime: int, upstream: seq<ApiMessage> -> Upstream)
    returns (resp: ChatResponse)
    requires db.Valid() && HasConversation(db.conversations, cid)
    modifies db
    ensures db.Valid()
    ensures old(db.NoOrphans()) ==> db.NoOrphans()
    ensures match upstream(request)
      case Raised(error) => resp == ServerError(FormatErrorMessage(error)) && unchanged(db)
      case Reply(text) =>
        resp == Replied(text, cid) && db.State() == StoreMessage(old(db.State()), cid, "assistant", text, replyTime)
  {
    match upstream(request)
    case Raised(error) =>
      resp := ServerError(FormatErrorMessage(error));
    case Reply(text) =>
      var stored := db.AddMessage(cid, "assistant", text, replyTime);
      resp := Replied(text, cid);
  }

  /** The store after the start of the chat endpoint: duplicates swept and, when no
      id was sent, the new conversation created. */
  function Opened(res: Resolution, t: Tables, newTitle: string, now: int): Tables {
    if res.CreateNew? then
      Tables(t.conversations + [Conversation(t.conversationSeq + 1, newTitle, now, now, false)],
             KeepMaxIdPerGroup(t.messages), t.conversationSeq + 1, t.messageSeq)
    else Tables(t.conversations, KeepMaxIdPerGroup(t.messages), t.conversationSeq, t.messageSeq)
  }

  /** The start of the chat endpoint: sweep the duplicates, then resolve the id
      sent with the request, creating a conversation when none was named. */
  method OpenConversation(db: Database, conversationParam: Option<string>, newTitle: string, now: int)
    returns (res: Resolution, cid: nat)
    requires db.Valid()
    modifies db
    ensures db.Valid()
    ensures old(db.NoOrphans()) ==> db.NoOrphans()
    ensures res == ResolveConversation(conversationParam, ActiveConversations(old(db.conversations)))
    ensures db.State() == Opened(res, old(db.State()), newTitle, now)
    ensures res != InvalidId ==> cid == TargetConversation(res, old(db.conversationSeq)) && HasConversation(db.conversations, cid)
  {
    ghost var cs0 := db.conversations;
    db.CleanupDuplicateMessages();
    res := ResolveConversation(conversationParam, ActiveConversations(db.conversations));
    match res
    case InvalidId =>
      cid := 0;
    case CreateNew =>
      cid := db.CreateConversation(newTitle, now);
      assert db.conversations[|db.conversations| - 1].id == cid;
    case Existing(id) =>
      assert HasConversation(cs0, id) by {
        var c :| c in ActiveConversations(cs0) && c.id == id;
        assert multiset(ActiveConversations(cs0))[c] > 0;
      }
      cid := id;
  }

  /** The chat endpoint. Duplicates are swept first; an invalid id or a refused
      upload ends the request before any message is stored (a conversation created
      for it stays); otherwise the user message is stored, the history and images
      are sent to the model, and its reply is stored as the assistant message. */
  method Chat(db: Database, conversationParam: Option<string>, message: string, files: seq<Upload>,
              newTitle: string, now: int, replyTime: int, upstream: seq<ApiMessage> -> Upstream)
    returns (resp: ChatResponse, request: seq<ApiMessage>)
    requires db.Valid()
    modifies db
    ensures db.Valid()
    ensures old(db.NoOrphans()) ==> db.NoOrphans()
    ensures var res := ResolveConversation(conversationParam, ActiveConversations(old(db.conversations)));
      res == InvalidId ==>
        && resp == BadRequest(InvalidConversationId) && request == []
        && db.State() == Opened(res, old(db.State()), newTitle, now)
    ensures var res := ResolveConversation(conversationParam, ActiveConversations(old(db.conversations)));
      res != InvalidId ==>
        Answered(resp, request, Opened(res, old(db.State()), newTitle, now), db.State(),
                 TargetConversation(res, old(db.conversationSeq)), message, files, now, replyTime, upstream)
    ensures var res := ResolveConversation(conversationParam, ActiveConversations(old(db.conversations)));
      res != InvalidId && Gate(files).Rejected? ==> db.State() == Opened(res, old(db.State()), newTitle, now)
  {
    var res, cid := OpenConversation(db, conversationParam, newTitle, now);
    if res == InvalidId {
      return BadRequest(InvalidConversationId), [];
    }
    resp, request := Respond(db, cid, message, files, now, replyTime, upstream);
  }
}
