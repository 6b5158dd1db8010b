/** The octets of a new workspace's manifest. */
module WorkspaceManifest {
  // (backend/app/workspace_initializer.py) A fixed text around the quoted id and the quoted name, in UTF-8.

  import opened Text
  import opened Json
  import opened JsonRoundTrip
  import opened JsonEncodable

  const LF: Str := [10]
  const BEFORE_ID: Str := Lit("schema_version: 2") + LF + Lit("workspace_id: ")
  const BEFORE_NAME: Str := LF + Lit("name: ")
  const PATHS: Str :=
    LF + Lit("paths:") + LF + Lit("  raw_common: raw/common") + LF + Lit("  raw_personal: raw/personal")
    + LF + Lit("  wiki_common: wiki/common") + LF + Lit("  wiki_personal: wiki/personal") + LF + Lit("  cache: .cache")
  const DEFAULTS: Str :=
    LF + Lit("defaults:") + LF + Lit("  publish_scope: personal") + LF + Lit("  visibility: private")
    + LF + Lit("  encoding: utf-8") + LF + Lit("  link_style: relative")
    + LF + Lit("description: \"Created by AllToNote\"") + LF

  /** Two quoted texts between fixed texts. */
  function Framed(first: Str, a: Str, middle: Str, b: Str, last: Str): Str {
    first + PrintText(a) + (middle + (PrintText(b) + last))
  }

  function ManifestText(workspaceId: Str, name: Str): Str {
    Framed(BEFORE_ID, workspaceId, BEFORE_NAME, name, PATHS + DEFAULTS)
  }

  /** `_manifest_bytes`; None where encoding the text raises. */
  function ManifestBytes(workspaceId: Str, name: Str): Option<Bytes> {
    Utf8Encode(ManifestText(workspaceId, name))
  }

  // ---------------------------------------------------------------- when it can be encoded

  lemma PathsEncodable()
    ensures Encodable(PATHS)
  {
    assert Encodable(Lit("paths:")) && Encodable(Lit("  raw_common: raw/common"))
      && Encodable(Lit("  raw_personal: raw/personal"));
    assert Encodable(Lit("  wiki_common: wiki/common")) && Encodable(Lit("  wiki_personal: wiki/personal"));
    assert Encodable(Lit("  cache: .cache"));
  }

  lemma DefaultsEncodable()
    ensures Encodable(DEFAULTS)
  {
    assert Encodable(Lit("defaults:")) && Encodable(Lit("  publish_scope: personal"))
      && Encodable(Lit("  visibility: private"));
    assert Encodable(Lit("  encoding: utf-8")) && Encodable(Lit("  link_style: relative"));
    assert Encodable(Lit("description: \"Created by AllToNote\""));
  }

  lemma QuotedEncodable(s: Str)
    ensures Encodable(PrintText(s)) <==> Encodable(s)
  {
    EscapedEncodable(s);
    hide EscapeChars;
    EnclosedEncodable(QUOTE, EscapeChars(s), QUOTE);
  }

  /** The manifest can be written exactly if neither the id nor the name holds a surrogate. */
  lemma ManifestEncodesExactly(workspaceId: Str, name: Str)
    ensures ManifestBytes(workspaceId, name).Some? <==> Encodable(workspaceId) && Encodable(name)
  {
    assert Encodable(BEFORE_ID) && Encodable(BEFORE_NAME);
    PathsEncodable();
    DefaultsEncodable();
    QuotedEncodable(workspaceId);
    QuotedEncodable(name);
    hide Encodable, PrintText, Lit;
    EncodableConcat(PATHS, DEFAULTS);
    EncodableConcat(PrintText(name), PATHS + DEFAULTS);
    EncodableConcat(BEFORE_NAME, PrintText(name) + (PATHS + DEFAULTS));
    EncodableConcat(BEFORE_ID, PrintText(workspaceId));
    EncodableConcat(BEFORE_ID + PrintText(workspaceId), BEFORE_NAME + (PrintText(name) + (PATHS + DEFAULTS)));
  }

  // ---------------------------------------------------------------- what it determines

  lemma QuotedDetermines(s: Str, t: Str, after: Str, later: Str)
    requires PrintText(s) + after == PrintText(t) + later
    ensures s == t && after == later
  {
    ParseCharsPrinted(s, after);
    ParseCharsPrinted(t, later);
    hide EscapeChars, ParseChars;
    assert (PrintText(s) + after)[1..] == EscapeChars(s) + [QUOTE] + after;
    assert (PrintText(t) + later)[1..] == EscapeChars(t) + [QUOTE] + later;
  }

  lemma SameTail(front: Str, s: Str, t: Str)
    requires front + s == front + t
    ensures s == t
  {
    assert (front + s)[|front|..] == s && (front + t)[|front|..] == t;
  }

  lemma FramedDetermines(first: Str, a: Str, middle: Str, b: Str, last: Str, c: Str, d: Str)
    requires Framed(first, a, middle, b, last) == Framed(first, c, middle, d, last)
    ensures a == c && b == d
  {
    hide PrintText;
    var after, later := middle + (PrintText(b) + last), middle + (PrintText(d) + last);
    assert Framed(first, a, middle, b, last) == first + (PrintText(a) + after);
    assert Framed(first, c, middle, d, last) == first + (PrintText(c) + later);
    hide Framed;
    SameTail(first, PrintText(a) + after, PrintText(c) + later);
    QuotedDetermines(a, c, after, later);
    SameTail(middle, PrintText(b) + last, PrintText(d) + last);
    QuotedDetermines(b, d, last, last);
  }

  /** Manifests with the same octets are of the same id and the same name. */
  lemma ManifestDetermines(workspaceId: Str, name: Str, otherId: Str, otherName: Str)
    requires ManifestBytes(workspaceId, name).Some?
    requires ManifestBytes(workspaceId, name) == ManifestBytes(otherId, otherName)
    ensures workspaceId == otherId && name == otherName
  {
    hide Framed, Encodable, Utf8Octets, Utf8Decode;
    var text, other := ManifestText(workspaceId, name), ManifestText(otherId, otherName);
    Utf8RoundTrip(text);
    Utf8RoundTrip(other);
    assert text == other;
    FramedDetermines(BEFORE_ID, workspaceId, BEFORE_NAME, name, PATHS + DEFAULTS, otherId, otherName);
  }
}
