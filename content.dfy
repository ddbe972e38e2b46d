/** Serving pre-compressed content (content.go): which compressed variants
    a content handler keeps, which encoding it serves for a request, and
    the ETag / gzip decisions of StaticContentHandler. Compression and
    hashing are done by libraries and are inputs here. */
module Content {
  import opened Common
  import opened Strs

  type Bytes = seq<bv8>

  // -----------------------------------------------------------------------
  // The response writer.

  /** An http.ResponseWriter as seen from the handler: the header map, the
      status once written, and the body written so far. */
  class ResponseRecorder {
    var header: map<string, string>
    var status: Option<int>
    var body: Bytes

    constructor ()
      ensures header == map[] && status == None && body == []
    {
      header, status, body := map[], None, [];
    }

    /** w.Header().Set(key, value), for a key already in the canonical
        form Set would store it under (callers write "ETag" as "Etag"). */
    method Set(key: string, value: string)
      modifies this
      ensures header == old(header)[key := value] && status == old(status) && body == old(body)
    {
      header := header[key := value];
    }

    /** w.WriteHeader(code): only the first status counts. */
    method WriteHeader(code: int)
      modifies this
      ensures status == if old(status).None? then Some(code) else old(status)
      ensures header == old(header) && body == old(body)
    {
      if status.None? {
        status := Some(code);
      }
    }

    /** w.Write(b): writes status 200 first if no status was written. */
    method Write(b: Bytes)
      modifies this
      ensures status == if old(status).None? then Some(200) else old(status)
      ensures header == old(header) && body == old(body) + b
    {
      if status.None? {
        status := Some(200);
      }
      body := body + b;
    }
  }

  // -----------------------------------------------------------------------
  // NewContentHandler and ServeHTTP (content.go:25-151).

  /** contentHandler: never changed after it is built. A missing variant is
      None (Go's nil slice). The hash is computed by HMAC-SHA256 and is an
      input. */
  datatype ContentHandler = ContentHandler(
    hash: string,
    contentType: string,
    content: Bytes,
    gzipContent: Option<Bytes>,
    brotliContent: Option<Bytes>)

  /** A compressed variant is kept only if compression produced one and it
      is strictly shorter than the original (content.go:47-52). */
  function KeepIfShorter(variant: Option<Bytes>, original: Bytes): (r: Option<Bytes>)
    ensures r.Some? <==> variant.Some? && |variant.value| < |original|
    ensures r.Some? ==> r == variant
  {
    if variant.None? || |variant.value| >= |original| then None else variant
  }

  /** Every variant a handler holds is strictly shorter than its content. */
  ghost predicate Valid(h: ContentHandler) {
    && (h.gzipContent.Some? ==> |h.gzipContent.value| < |h.content|)
    && (h.brotliContent.Some? ==> |h.brotliContent.value| < |h.content|)
  }

  /** NewContentHandler, given the hash and what gzip and brotli produced
      (None where that compression failed). */
  function NewContentHandler(content: Bytes, contentType: string, hash: string,
                             gzipped: Option<Bytes>, brotlied: Option<Bytes>): (h: ContentHandler)
    ensures Valid(h)
    ensures h.content == content && h.contentType == contentType && h.hash == hash
    ensures h.gzipContent.Some? <==> gzipped.Some? && |gzipped.value| < |content|
    ensures h.brotliContent.Some? <==> brotlied.Some? && |brotlied.value| < |content|
  {
    ContentHandler(hash, contentType, content, KeepIfShorter(gzipped, content), KeepIfShorter(brotlied, content))
  }

  /** brotliBest (content.go:114-119). */
  predicate BrotliBest(h: ContentHandler, supportsBrotli: bool) {
    && supportsBrotli
    && h.brotliContent.Some?
    && (h.gzipContent.None? || |h.brotliContent.value| < |h.gzipContent.value|)
  }

  datatype Encoding = Brotli | Gzip | Identity

  /** The encoding ServeHTTP chooses for an Accept-Encoding header
      (content.go:126-141). */
  function ChooseEncoding(h: ContentHandler, acceptEncoding: string): Encoding {
    if BrotliBest(h, Contains(acceptEncoding, "br")) then Brotli
    else if Contains(acceptEncoding, "gzip") && h.gzipContent.Some? then Gzip
    else Identity
  }

  /** The bytes served for an encoding. */
  function Body(h: ContentHandler, e: Encoding): Bytes
    requires e == Brotli ==> h.brotliContent.Some?
    requires e == Gzip ==> h.gzipContent.Some?
  {
    match e
    case Brotli => h.brotliContent.value
    case Gzip => h.gzipContent.value
    case Identity => h.content
  }

  /** The Content-Encoding header of an encoding; none for identity. */
  function EncodingName(e: Encoding): Option<string> {
    match e
    case Brotli => Some("br")
    case Gzip => Some("gzip")
    case Identity => None
  }

  /** Brotli is served exactly when the header mentions "br", a brotli
      variant exists, and there is no gzip variant or the brotli one is
      strictly shorter; otherwise gzip exactly when the header mentions
      "gzip" and a gzip variant exists; otherwise the content as is. */
  lemma ChooseEncodingSpec(h: ContentHandler, acceptEncoding: string)
    ensures ChooseEncoding(h, acceptEncoding) == Brotli <==>
      Contains(acceptEncoding, "br") && h.brotliContent.Some? &&
      (h.gzipContent.None? || |h.brotliContent.value| < |h.gzipContent.value|)
    ensures ChooseEncoding(h, acceptEncoding) == Gzip <==>
      ChooseEncoding(h, acceptEncoding) != Brotli && Contains(acceptEncoding, "gzip") && h.gzipContent.Some?
    ensures ChooseEncoding(h, acceptEncoding) == Identity ==>
      !(Contains(acceptEncoding, "br") && h.brotliContent.Some? && h.gzipContent.None?) &&
      !(Contains(acceptEncoding, "gzip") && h.gzipContent.Some?)
  {
  }

  /** What is served is never longer than the original content, and is
      shorter whenever it is compressed. */
  lemma ServedNoLonger(h: ContentHandler, acceptEncoding: string)
    requires Valid(h)
    ensures var e := ChooseEncoding(h, acceptEncoding);
      |Body(h, e)| <= |h.content| && (e != Identity ==> |Body(h, e)| < |h.content|)
  {
  }

  /** A client that accepts both encodings gets the shorter variant, brotli
      on a tie of lengths going to gzip. */
  lemma BothAcceptedGetsShortest(h: ContentHandler, acceptEncoding: string)
    requires Contains(acceptEncoding, "br") && Contains(acceptEncoding, "gzip")
    requires h.gzipContent.Some? || h.brotliContent.Some?
    ensures var e := ChooseEncoding(h, acceptEncoding);
      && e != Identity
      && (h.gzipContent.Some? ==> |Body(h, e)| <= |h.gzipContent.value|)
      && (h.brotliContent.Some? ==> |Body(h, e)| <= |h.brotliContent.value|)
  {
  }

  /** ServeHTTP: sets Content-Type, Content-Length (the decimal length of
      the bytes written), Cache-Control, Content-Encoding only for br or
      gzip, and writes the chosen bytes. */
  method ServeHTTP(h: ContentHandler, acceptEncoding: string, w: ResponseRecorder)
    modifies w
    ensures var e := ChooseEncoding(h, acceptEncoding);
      var served := Body(h, e);
      && w.body == old(w.body) + served
      && w.status == (if old(w.status).None? then Some(200) else old(w.status))
      && var common := old(w.header)["Content-Type" := h.contentType]
                                    ["Content-Length" := Itoa(|served|)]
                                    ["Cache-Control" := "public, max-age=31536000"];
         w.header == (if e == Identity then common else common["Content-Encoding" := EncodingName(e).value])
  {
    var supportsBrotli := Contains(acceptEncoding, "br");
    var supportsGzip := Contains(acceptEncoding, "gzip");
    var contentBytes: Bytes;
    var contentEncoding := "";
    var contentLength: string;
    if BrotliBest(h, supportsBrotli) {
      contentBytes := h.brotliContent.value;
      contentEncoding := "br";
      contentLength := Itoa(|h.brotliContent.value|);
    } else if supportsGzip && h.gzipContent.Some? {
      contentBytes := h.gzipContent.value;
      contentEncoding := "gzip";
      contentLength := Itoa(|h.gzipContent.value|);
    } else {
      contentBytes := h.content;
      contentLength := Itoa(|h.content|);
    }
    w.Set("Content-Type", h.contentType);
    w.Set("Content-Length", contentLength);
    w.Set("Cache-Control", "public, max-age=31536000");
    if contentEncoding != "" {
      w.Set("Content-Encoding", contentEncoding);
    }
    w.Write(contentBytes);
  }

  // -----------------------------------------------------------------------
  // StaticContentHandler (content.go:161-204).

  /** What the closure captures: the ETag (an MD5 hex digest, an input
      here), the gzipped bytes and whether to serve them. */
  datatype StaticHandler = StaticHandler(
    etag: string,
    contentType: string,
    content: Bytes,
    gzipped: Bytes,
    serveGzip: bool)

  /** Gzip is served only if compressing succeeded and gave strictly fewer
      bytes (content.go:162-177). `gzipped` is None when writing or closing
      the gzip writer failed. */
  function StaticContentHandler(content: Bytes, contentType: string, etag: string, gzipped: Option<Bytes>): (h: StaticHandler)
    ensures h.serveGzip <==> gzipped.Some? && |gzipped.value| < |content|
    ensures h.serveGzip ==> h.gzipped == gzipped.value
    ensures h.etag == etag && h.content == content && h.contentType == contentType
  {
    var serveGzip := gzipped.Some? && |gzipped.value| < |content|;
    StaticHandler(etag, contentType, content, if gzipped.Some? then gzipped.value else [], serveGzip)
  }

  /** The handler function. A request whose If-None-Match equals the ETag
      gets 304 and nothing else; otherwise the ETag and Content-Type are
      set, and the gzipped bytes are sent, with Content-Encoding, when gzip
      is to be served and the request accepts it, else the original. */
  method ServeStatic(h: StaticHandler, ifNoneMatch: string, acceptEncoding: string, w: ResponseRecorder)
    modifies w
    ensures ifNoneMatch == h.etag ==>
      && w.status == (if old(w.status).None? then Some(304) else old(w.status))
      && w.header == old(w.header) && w.body == old(w.body)
    ensures ifNoneMatch != h.etag ==>
      var gz := h.serveGzip && Contains(acceptEncoding, "gzip");
      var served := if gz then h.gzipped else h.content;
      && w.status == (if old(w.status).None? then Some(200) else old(w.status))
      && w.body == old(w.body) + served
      && var tagged := old(w.header)["Etag" := h.etag]["Content-Type" := h.contentType];
         w.header == (if gz then tagged["Content-Encoding" := "gzip"] else tagged)["Content-Length" := Itoa(|served|)]
  {
    if ifNoneMatch == h.etag {
      w.WriteHeader(304);
      return;
    }
    w.Set("Etag", h.etag);
    w.Set("Content-Type", h.contentType);
    if h.serveGzip && Contains(acceptEncoding, "gzip") {
      w.Set("Content-Encoding", "gzip");
      w.Set("Content-Length", Itoa(|h.gzipped|));
      w.WriteHeader(200);
      w.Write(h.gzipped);
    } else {
      w.Set("Content-Length", Itoa(|h.content|));
      w.WriteHeader(200);
      w.Write(h.content);
    }
  }

  /** A static handler never sends more bytes than the content has. */
  lemma StaticServedNoLonger(content: Bytes, contentType: string, etag: string, gzipped: Option<Bytes>, acceptEncoding: string)
    ensures var h := StaticContentHandler(content, contentType, etag, gzipped);
      |(if h.serveGzip && Contains(acceptEncoding, "gzip") then h.gzipped else h.content)| <= |content|
  {
  }
}
