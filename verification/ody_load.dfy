/** Loading in the odyexp viewer (crates/odyexp-viewer/src/load.rs): the name
    a downloaded file is shown under, derived from its URL, and the message
    stream of `process_loading_loop`. */
module OdyLoad {
  import opened Wrappers
  import opened Text
  import opened DataSources
  import opened OdyMessages

  const PLY_EXT: string := ".ply"

  /** The URL up to its first `.ply` (load.rs:50). */
  function Stripped(url: string): (r: string)
    ensures r <= url
  {
    BeforeFirst(url, PLY_EXT)
  }

  /** `DataSource::read` for a URL (load.rs:40-56) without the download: the
      URL that is requested and the name the file is shown under. The name is
      rebuilt from the pieces of `rsplit('/')` over the stripped URL: the last
      piece, then the piece before it, a `/` and `.ply` around them. */
  method ReadUrl(url: string) returns (requested: string, filename: string)
    ensures requested == WithScheme(url)
    ensures filename == DisplayName(requested)
  {
    requested := NormaliseUrl(url);
    var stripped := Stripped(requested);
    var last := AfterLast(stripped, '/');
    filename := last;
    var second := SecondLast(stripped, '/');
    if second.Some? {
      filename := second.value + "/" + filename + PLY_EXT;
    }
  }

  /** The display name of a requested URL. */
  function DisplayName(requested: string): string
  {
    var stripped := Stripped(requested);
    var last := AfterLast(stripped, '/');
    match SecondLast(stripped, '/')
    case None => last
    case Some(second) => second + "/" + last + PLY_EXT
  }

  /** A normalised URL keeps its scheme when cut at the first `.ply`, because
      no scheme character is a `.`. */
  lemma StrippedKeepsScheme(requested: string)
    requires HasScheme(requested)
    ensures HasScheme(Stripped(requested))
  {
    var s := Stripped(requested);
    var scheme := if StartsWith(requested, HTTP) then HTTP else HTTPS;
    assert scheme <= requested;
    forall i | 0 <= i < |scheme|
      ensures !(PLY_EXT <= requested[i..])
    {
      assert requested[i] == scheme[i] != '.';
    }
    assert |s| >= |scheme|;
    assert s[..|scheme|] == requested[..|scheme|];
  }

  /** A URL with a scheme has `//` at positions `p` and `p + 1`. */
  lemma SchemeSlashes(s: string) returns (p: nat)
    requires HasScheme(s)
    ensures p + 1 < |s| && s[p] == '/' && s[p + 1] == '/'
  {
    if StartsWith(s, HTTP) {
      p := 5;
      assert s[..7] == HTTP;
    } else {
      p := 6;
      assert s[..8] == HTTPS;
    }
  }

  /** A name built from two slash-free pieces holds one `/` and ends in `.ply`. */
  lemma NameHasOneSlash(second: string, last: string)
    requires '/' !in second && '/' !in last
    ensures CountOf(second + "/" + last + PLY_EXT, '/') == 1
    ensures var name := second + "/" + last + PLY_EXT; name[|name| - 4..] == PLY_EXT
  {
    CountOfAppend(second + "/" + last, PLY_EXT, '/');
    CountOfAppend(second + "/", last, '/');
    CountOfAppend(second, "/", '/');
    assert CountOf(PLY_EXT, '/') == 0;
    assert CountOf("/", '/') == 1;
  }

  /** The two pieces the name of a requested URL is built from: the last two
      `/`-separated pieces of the stripped URL. The second always exists
      because the scheme brings a `//`. */
  lemma NamePieces(url: string) returns (second: string, last: string)
    ensures var stripped := Stripped(WithScheme(url));
            && DisplayName(WithScheme(url)) == second + "/" + last + PLY_EXT
            && '/' !in second && '/' !in last
            && |second| + 1 + |last| < |stripped|
            && stripped[|stripped| - |second| - |last| - 2..] == "/" + second + "/" + last
  {
    var requested := WithScheme(url);
    var stripped := Stripped(requested);
    StrippedKeepsScheme(requested);
    var p := SchemeSlashes(stripped);
    second, last := LastTwoPieces(stripped, '/', p);
    TwoSeparators(stripped, '/', second, last);
  }

  /** The name of any requested URL is the last two `/`-separated pieces of
      the stripped URL, joined by `/`, followed by `.ply`. So the name holds
      exactly one `/` and ends in `.ply`. */
  lemma DisplayNameShape(url: string)
    ensures var stripped := Stripped(WithScheme(url));
            var name := DisplayName(WithScheme(url));
            exists second: string, last: string ::
              && name == second + "/" + last + PLY_EXT
              && '/' !in second && '/' !in last
              && |second| + 1 + |last| < |stripped|
              && stripped[|stripped| - |second| - |last| - 2..] == "/" + second + "/" + last
    ensures CountOf(DisplayName(WithScheme(url)), '/') == 1
    ensures var name := DisplayName(WithScheme(url)); |name| >= 4 && name[|name| - 4..] == PLY_EXT
  {
    var second, last := NamePieces(url);
    NameHasOneSlash(second, last);
  }

  // ---------------------------------------------------------------------------
  // Message stream

  /** `process_loading_loop` (load.rs:66-114), with its errors mapped to
      `Error` messages as the caller does: `NewSource` before anything is read,
      then either the ply messages or a single error. */
  function ProcessLoadingLoop(read: SourceRead, ply: Yielded<PlyFrame>): (r: seq<Message>)
    ensures |r| >= 2 && r[0] == NewSource
    ensures forall i :: 0 <= i < |r| ==> r[i].NewSource? ==> i == 0
    ensures forall i :: 0 <= i < |r| ==> r[i].StartLoading? ==> i == 1
    ensures forall i :: 0 <= i < |r| ==> r[i].Error? || r[i].DoneLoading? ==> i == |r| - 1
  {
    [NewSource] +
    match read
    case ReadFailed => [Error(SourceUnreadable)]
    case Fetched(data, filename) =>
      match Peek(data)
      case None => [Error(SourceTooShort)]
      case Some(peek) =>
        match Sniff(peek, false)
        case Ply => [StartLoading(filename)] + ViewSplatsOf(ply.items)
                      + (if ply.failed then [Error(DecodeFailed)] else [DoneLoading])
        case Html => [Error(DownloadPage)]
        case _ => [Error(UnsupportedFormat)]
  }

  /** One `ViewSplats` per decoded frame, in decoding order. */
  function ViewSplatsOf(frames: seq<PlyFrame>): (r: seq<Message>)
    ensures |r| == |frames|
    ensures forall i :: 0 <= i < |r| ==>
              r[i] == ViewSplats(frames[i].upAxis, frames[i].splats, frames[i].frame)
  {
    if frames == [] then []
    else [ViewSplats(frames[0].upAxis, frames[0].splats, frames[0].frame)] + ViewSplatsOf(frames[1..])
  }

  /** The sniffing rule on a readable source: a ply peek gives `StartLoading`,
      the frames and `DoneLoading`; an HTML page and anything else (a zip
      archive included) give a single error. */
  lemma SniffOutcomes(data: seq<byte>, filename: string, ply: Yielded<PlyFrame>)
    requires |data| >= PEEK_LEN
    ensures StartsWith(data, PLY_MAGIC) && !ply.failed ==>
              ProcessLoadingLoop(Fetched(data, filename), ply) ==
                [NewSource, StartLoading(filename)] + ViewSplatsOf(ply.items) + [DoneLoading]
    ensures StartsWith(data, HTML_MAGIC) ==>
              ProcessLoadingLoop(Fetched(data, filename), ply) == [NewSource, Error(DownloadPage)]
    ensures !StartsWith(data, PLY_MAGIC) && !StartsWith(data, HTML_MAGIC) ==>
              ProcessLoadingLoop(Fetched(data, filename), ply) == [NewSource, Error(UnsupportedFormat)]
  {
    var peek := data[..PEEK_LEN];
    assert Peek(data) == Some(peek);
    assert StartsWith(data, PLY_MAGIC) <==> StartsWith(peek, PLY_MAGIC) by {
      assert |PLY_MAGIC| == 3 && data[..3] == peek[..3];
    }
    assert StartsWith(data, HTML_MAGIC) <==> StartsWith(peek, HTML_MAGIC) by {
      assert |HTML_MAGIC| == 15 && data[..15] == peek[..15];
    }
  }
}
