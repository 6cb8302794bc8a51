/** What the two viewers share about reading a data source: the URL scheme fix
    applied before a download (crates/brush-viewer/src/viewer.rs:279-283 and
    crates/odyexp-viewer/src/load.rs:41-44), the 128-byte peek, and format
    sniffing by byte prefix. The download and the ply decoder are outside the
    model: their outcomes are parameters. */
module DataSources {
  import opened Wrappers
  import opened Text

  // ---------------------------------------------------------------------------
  // URL scheme

  const HTTP: string := "http://"
  const HTTPS: string := "https://"

  predicate HasScheme(url: string) {
    StartsWith(url, HTTP) || StartsWith(url, HTTPS)
  }

  /** The URL that is actually requested for a user-given URL. */
  function WithScheme(url: string): (r: string)
    ensures HasScheme(r)
  {
    if HasScheme(url) then url else HTTPS + url
  }

  /** The URL fix as the source writes it: a mutable `url` that is reassigned
      when it carries neither scheme. */
  method NormaliseUrl(url: string) returns (normalised: string)
    ensures normalised == WithScheme(url)
  {
    normalised := url;
    if !StartsWith(normalised, HTTP) && !StartsWith(normalised, HTTPS) {
      normalised := HTTPS + normalised;
    }
  }

  /** A URL that already names either scheme is left alone; any other URL gets
      `https://` in front of all its text. */
  lemma WithSchemeKeepsUrl(url: string)
    ensures HasScheme(url) ==> WithScheme(url) == url
    ensures !HasScheme(url) ==> WithScheme(url) == HTTPS + url && WithScheme(url)[|HTTPS|..] == url
  {
  }

  /** Applying the fix twice is the same as applying it once. */
  lemma WithSchemeIdempotent(url: string)
    ensures WithScheme(WithScheme(url)) == WithScheme(url)
  {
    WithSchemeKeepsUrl(WithScheme(url));
  }

  // ---------------------------------------------------------------------------
  // Peek and sniff

  /** The number of bytes read up front to decide the format. */
  const PEEK_LEN: nat := 128

  /** `read_exact` into a 128-byte buffer: `None` is the end-of-file error of a
      source shorter than the buffer. */
  function Peek(data: seq<byte>): (r: Option<seq<byte>>)
    ensures r.None? <==> |data| < PEEK_LEN
    ensures r.Some? ==> |r.value| == PEEK_LEN && r.value <= data
  {
    if |data| < PEEK_LEN then None else Some(data[..PEEK_LEN])
  }

  const PLY_MAGIC: seq<byte> := Ascii("ply")
  const ZIP_MAGIC: seq<byte> := Ascii("PK")
  const HTML_MAGIC: seq<byte> := Ascii("<!DOCTYPE html>")

  datatype Format = Ply | Zip | Html | Unknown

  /** The format chosen for a peek; `acceptZip` tells whether the loop has a
      zip branch at all (the training loop has, the view-only loop has not). */
  function Sniff(peek: seq<byte>, acceptZip: bool): (f: Format)
    ensures f == Ply <==> StartsWith(peek, PLY_MAGIC)
    ensures f == Zip <==> acceptZip && StartsWith(peek, ZIP_MAGIC)
    ensures f == Html <==> StartsWith(peek, HTML_MAGIC)
    ensures f == Unknown <==>
              !StartsWith(peek, PLY_MAGIC) && !(acceptZip && StartsWith(peek, ZIP_MAGIC))
              && !StartsWith(peek, HTML_MAGIC)
  {
    MagicsExclusive(peek);
    if StartsWith(peek, PLY_MAGIC) then Ply
    else if acceptZip && StartsWith(peek, ZIP_MAGIC) then Zip
    else if StartsWith(peek, HTML_MAGIC) then Html
    else Unknown
  }

  /** The three magic prefixes begin with different bytes, so a peek matches at
      most one of them and the order of the tests cannot change the outcome. */
  lemma MagicsExclusive(peek: seq<byte>)
    ensures !(StartsWith(peek, PLY_MAGIC) && StartsWith(peek, ZIP_MAGIC))
    ensures !(StartsWith(peek, PLY_MAGIC) && StartsWith(peek, HTML_MAGIC))
    ensures !(StartsWith(peek, ZIP_MAGIC) && StartsWith(peek, HTML_MAGIC))
  {
    assert PLY_MAGIC[0] == 'p' as int;
    assert ZIP_MAGIC[0] == 'P' as int;
    assert HTML_MAGIC[0] == '<' as int;
    if StartsWith(peek, PLY_MAGIC) {
      assert peek[0] == PLY_MAGIC[0];
    }
    if StartsWith(peek, ZIP_MAGIC) {
      assert peek[0] == ZIP_MAGIC[0];
    }
  }

  /** The view-only loop sends a zip archive to the unsupported branch. */
  lemma ZipUnsupportedWithoutTraining(peek: seq<byte>)
    requires StartsWith(peek, ZIP_MAGIC)
    ensures Sniff(peek, false) == Unknown
    ensures Sniff(peek, true) == Zip
  {
    MagicsExclusive(peek);
  }

  // ---------------------------------------------------------------------------
  // Outcomes of the parts that are not modelled

  /** What `DataSource::read` produced: an error (a failed pick or download),
      or the bytes of the source with the name it is shown under. */
  datatype SourceRead = ReadFailed | Fetched(data: seq<byte>, filename: string)

  /** What an inner stream (the ply decoder, the training loop) yields before it
      ends: its items, and whether it ended with an error. */
  datatype Yielded<T> = Yielded(items: seq<T>, failed: bool)
}
