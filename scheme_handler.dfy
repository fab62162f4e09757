/**
  The handler of `afx://file/` requests (`scheme_handler_impl.cpp`): the path a
  request names, the MIME type its extension maps to, and the reading of the
  file in blocks.
*/
module SchemeHandler {
  import opened Wrappers
  import opened Text
  import opened Wire

  // ---------------------------------------------------------------------------
  // MIME types

  /** The MIME table `CMimeType` fills at construction, keyed by extension with its dot. */
  const MimeTable: map<string, string> :=
    map[
      ".aac" := "audio/aac",
      ".abw" := "application/x-abiword",
      ".arc" := "application/x-freearc",
      ".avi" := "video/x-msvideo",
      ".azw" := "application/vnd.amazon.ebook",
      ".bin" := "application/octet-stream",
      ".bmp" := "image/bmp",
      ".bz" := "application/x-bzip",
      ".bz2" := "application/x-bzip2",
      ".csh" := "application/x-csh",
      ".css" := "text/css",
      ".csv" := "text/csv",
      ".doc" := "application/msword",
      ".docx" := "application/vnd.openxmlformats-officedocument.wordprocessingml.document",
      ".eot" := "application/vnd.ms-fontobject",
      ".epub" := "application/epub+zip",
      ".gz" := "application/gzip",
      ".gif" := "image/gif",
      ".htm" := "text/html",
      ".html" := "text/html",
      ".ico" := "image/vnd.microsoft.icon",
      ".ics" := "text/calendar",
      ".jar" := "application/java-archive",
      ".jpeg" := "image/jpeg",
      ".jpg" := "image/jpeg",
      ".js" := "text/javascript",
      ".json" := "application/json",
      ".jsonld" := "application/ld+json",
      ".mid" := "audio/midi",
      ".midi" := "audio/midi",
      ".mjs" := "text/javascript",
      ".mp3" := "audio/mpeg",
      ".cda" := "application/x-cdf",
      ".mp4" := "video/mp4",
      ".mpeg" := "video/mpeg",
      ".mpkg" := "application/vnd.apple.installer+xml",
      ".odp" := "application/vnd.oasis.opendocument.presentation",
      ".ods" := "application/vnd.oasis.opendocument.spreadsheet",
      ".odt" := "application/vnd.oasis.opendocument.text",
      ".oga" := "audio/ogg",
      ".ogv" := "video/ogg",
      ".ogx" := "application/ogg",
      ".opus" := "audio/opus",
      ".otf" := "font/otf",
      ".png" := "image/png",
      ".pdf" := "application/pdf",
      ".php" := "application/x-httpd-php",
      ".ppt" := "application/vnd.ms-powerpoint",
      ".pptx" := "application/vnd.openxmlformats-officedocument.presentationml.presentation",
      ".rar" := "application/vnd.rar",
      ".rtf" := "application/rtf",
      ".sh" := "application/x-sh",
      ".svg" := "image/svg+xml",
      ".swf" := "application/x-shockwave-flash",
      ".tar" := "application/x-tar",
      ".tif" := "image/tiff",
      ".tiff" := "image/tiff",
      ".ts" := "video/mp2t",
      ".ttf" := "font/ttf",
      ".txt" := "text/plain",
      ".vsd" := "application/vnd.visio",
      ".wav" := "audio/wav",
      ".weba" := "audio/webm",
      ".webm" := "video/webm",
      ".webp" := "image/webp",
      ".woff" := "font/woff",
      ".woff2" := "font/woff2",
      ".xhtml" := "application/xhtml+xml",
      ".xls" := "application/vnd.ms-excel",
      ".xlsx" := "application/vnd.openxmlformats-officedocument.spreadsheetml.sheet",
      ".xml" := "application/xml",
      ".xul" := "application/vnd.mozilla.xul+xml",
      ".zip" := "application/zip",
      ".3gp" := "video/3gpp",
      ".3g2" := "video/3gpp2",
      ".7z" := "application/x-7z-compressed"
    ]

  const DefaultMimeType: string := "application/octet-stream"

  /** `CMimeType::Get`: the type of the text from the last dot on, or the default. */
  function MimeTypeOf(url: string): string
  {
    match LastIndexOf(url, '.')
    case None => DefaultMimeType
    case Some(pos) => if url[pos..] in MimeTable then MimeTable[url[pos..]] else DefaultMimeType
  }

  /** A URL ending in a known extension gets that extension's type. */
  lemma MimeTypeOfKnownExtension(stem: string, ext: string)
    requires ext in MimeTable && |ext| > 0 && ext[0] == '.' && '.' !in ext[1..]
    ensures MimeTypeOf(stem + ext) == MimeTable[ext]
  {
    var url := stem + ext;
    assert url[|stem| + 1..] == ext[1..];
    LastIndexOfAt(url, '.', |stem|);
    assert url[|stem|..] == ext;
  }

  /** Without a dot, or with an unknown text after the last dot, the default type. */
  lemma MimeTypeDefault(url: string)
    ensures '.' !in url ==> MimeTypeOf(url) == DefaultMimeType
    ensures (exists pos :: 0 <= pos < |url| && url[pos] == '.' && '.' !in url[pos + 1..] && url[pos..] !in MimeTable)
            ==> MimeTypeOf(url) == DefaultMimeType
  {
    if pos :| 0 <= pos < |url| && url[pos] == '.' && '.' !in url[pos + 1..] && url[pos..] !in MimeTable {
      LastIndexOfAt(url, '.', pos);
    }
  }

  /** The type is always one of the table's types or the default. */
  lemma MimeTypeInTable(url: string)
    ensures MimeTypeOf(url) in MimeTable.Values || MimeTypeOf(url) == DefaultMimeType
  {
  }

  // ---------------------------------------------------------------------------
  // ends_with

  /** The last `|ending|` characters of `value`, compared from the back (`std::equal` on reverse iterators). */
  function MatchesFromEnd(value: string, ending: string): bool
    requires |ending| <= |value|
  {
    |ending| == 0
    || (value[|value| - 1] == ending[|ending| - 1] && MatchesFromEnd(value[..|value| - 1], ending[..|ending| - 1]))
  }

  /** `ends_with`: false when `ending` is longer than `value`, else the comparison from the back. */
  function EndsWith(value: string, ending: string): bool
  {
    if |ending| > |value| then false else MatchesFromEnd(value, ending)
  }

  lemma {:induction false} MatchesFromEndIff(value: string, ending: string)
    requires |ending| <= |value|
    ensures MatchesFromEnd(value, ending) <==> value[|value| - |ending|..] == ending
  {
    if |ending| > 0 {
      var v, e := value[..|value| - 1], ending[..|ending| - 1];
      MatchesFromEndIff(v, e);
      assert value[|value| - |ending|..] == v[|v| - |e|..] + [value[|value| - 1]];
      assert ending == e + [ending[|ending| - 1]];
    }
  }

  /** `ends_with(v, e)` holds exactly when `e` is a suffix of `v`; so every text ends with the empty one. */
  lemma EndsWithIff(value: string, ending: string)
    ensures EndsWith(value, ending) <==> |ending| <= |value| && value[|value| - |ending|..] == ending
    ensures EndsWith(value, [])
  {
    if |ending| <= |value| {
      MatchesFromEndIff(value, ending);
    }
  }

  // ---------------------------------------------------------------------------
  // The path a request names

  const FilePrefix: string := "afx://file/"

  /**
    The file `ProcessRequest` opens for `url`: none unless the URL starts with
    `afx://file/`; else the rest, cut at the first `?` and then at the first `#`.
  */
  function RequestPath(url: string): (r: Option<string>)
    ensures r.Some? <==> FilePrefix <= url
    ensures r.Some? ==> '?' !in r.value && '#' !in r.value && FilePrefix + r.value <= url
  {
    FindAtStartIff(url, FilePrefix);
    if Find(url, FilePrefix) == Some(0) then
      var rest := url[|FilePrefix|..];
      var path := Before(Before(rest, '?'), '#');
      assert url == FilePrefix + rest;
      Some(path)
    else None
  }

  /** A path without `?` and `#` comes back from its URL, whatever query or fragment follows. */
  lemma RequestPathRoundTrip(path: string, tail: string)
    requires '?' !in path && '#' !in path
    requires tail == [] || tail[0] == '?' || tail[0] == '#'
    ensures RequestPath(FilePrefix + path + tail) == Some(path)
  {
    var url := FilePrefix + path + tail;
    assert url[|FilePrefix|..] == path + tail;
    BeforeAppend(path, tail, '?');
    var t := Before(tail, '?');
    BeforeAppend(path, t, '#');
    assert t == [] || t[0] == '#';
    assert path + [] == path;
  }

  // ---------------------------------------------------------------------------
  // Reading the file in blocks

  /**
    How many bytes `ReadResponse` hands over when `n` are asked for at `offset`
    of a file of `size` bytes: as many as asked, but no more than are left.
  */
  function ReadSize(size: int, offset: nat, n: nat): (r: nat)
    ensures r <= n
    ensures offset < size ==> offset + r <= size && (r == n || offset + r == size)
    ensures offset >= size ==> r == 0
  {
    if offset < size then (if n < size - offset then n else size - offset) else 0
  }

  function Sum(ns: seq<nat>): nat
  {
    if ns == [] then 0 else ns[0] + Sum(ns[1..])
  }

  /** What successive reads asking for `requests` bytes hand over, from `offset` on. */
  function Delivered(content: Bytes, offset: nat, requests: seq<nat>): Bytes
    requires offset <= |content|
    decreases |requests|
  {
    if requests == [] then []
    else
      var k := ReadSize(|content|, offset, requests[0]);
      content[offset..offset + k] + Delivered(content, offset + k, requests[1..])
  }

  /** Reads in a row hand over the file in order, without gap or repeat, until it is exhausted. */
  lemma {:induction false} DeliveredInOrder(content: Bytes, offset: nat, requests: seq<nat>)
    requires offset <= |content|
    ensures var end := if offset + Sum(requests) < |content| then offset + Sum(requests) else |content|;
      Delivered(content, offset, requests) == content[offset..end]
    decreases |requests|
  {
    if requests != [] {
      var k := ReadSize(|content|, offset, requests[0]);
      DeliveredInOrder(content, offset + k, requests[1..]);
      var end := if offset + Sum(requests) < |content| then offset + Sum(requests) else |content|;
      var end' := if offset + k + Sum(requests[1..]) < |content| then offset + k + Sum(requests[1..]) else |content|;
      assert end' == end;
      assert content[offset..end] == content[offset..offset + k] + content[offset + k..end];
    }
  }

  /** The handler of one `afx://file/` request (`ClientSchemeHandler`). */
  class FileHandler {
    /** The content of the open file, if one is open. */
    var file: Option<Bytes>
    var mimeType: string
    /** How much of the file has been handed over. */
    var offset: nat
    var fileSize: int

    constructor ()
      ensures file == None && offset == 0 && mimeType == [] && fileSize == 0
    {
      file, offset, mimeType, fileSize := None, 0, [], 0;
    }

    /** An open file's size is known. */
    predicate Open()
      reads this
    {
      file.Some? && fileSize == |file.value|
    }

    /**
      `ProcessRequest`: the path is taken from the URL and the file opened
      (`disk` maps the paths that can be opened to their content); on success
      the MIME type and the size are recorded.  An `afx://file/` URL closes a
      file opened before, whether or not the new one opens.
    */
    method ProcessRequest(url: string, disk: map<string, Bytes>) returns (handled: bool)
      modifies this`file, this`mimeType, this`fileSize
      ensures handled <==> RequestPath(url).Some? && RequestPath(url).value in disk
      ensures handled ==> Open() && file == Some(disk[RequestPath(url).value])
      ensures handled ==> mimeType == MimeTypeOf(RequestPath(url).value)
      ensures RequestPath(url).Some? && !handled ==> file == None
      ensures RequestPath(url).None? ==> file == old(file)
      ensures !handled ==> mimeType == old(mimeType) && fileSize == old(fileSize)
    {
      var u := url;
      handled := false;
      if Find(u, FilePrefix) == Some(0) {
        u := u[|FilePrefix|..];
        var query := FirstIndexOf(u, '?');
        if query.Some? {
          u := u[..query.value];
        }
        var hash := FirstIndexOf(u, '#');
        if hash.Some? {
          u := u[..hash.value];
        }
        file := None;
        if u in disk {
          file := Some(disk[u]);
          mimeType := MimeTypeOf(u);
          fileSize := |disk[u]|;
          handled := true;
        }
      }
    }

    /**
      `ReadResponse`: while data is left, the next block of at most
      `bytesToRead` bytes is handed over and the offset moves past it; at the
      end of the file nothing is handed over and false is returned.
    */
    method ReadResponse(bytesToRead: nat) returns (hasData: bool, data: Bytes)
      requires Open()
      modifies this`offset
      ensures hasData <==> old(offset) < fileSize
      ensures |data| == ReadSize(fileSize, old(offset), bytesToRead)
      ensures offset == old(offset) + |data|
      ensures old(offset) <= fileSize ==> offset <= fileSize
      ensures hasData ==> data == file.value[old(offset)..offset]
    {
      hasData := false;
      data := [];
      if offset < fileSize {
        var transfer := if bytesToRead < fileSize - offset then bytesToRead else fileSize - offset;
        data := file.value[offset..offset + transfer];
        offset := offset + |data|;
        hasData := true;
      }
    }
  }
}
