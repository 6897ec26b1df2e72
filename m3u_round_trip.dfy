/**
 * Reading back what the playlist writer emits (backend/src/routes/playlist.rs, `get_playlist_m3u`)
 * with the M3U reader (backend/src/services/m3u_parser.rs, `parse_m3u`): every channel comes back
 * with its name, group, logo, stream URL and `tvg-id`, provided its fields fit in the quoted
 * attribute syntax the writer uses without escaping.
 */
module M3uRoundTrip {
  import opened Wrappers
  import opened Text
  import opened Models
  import opened M3uParser
  import opened PlaylistRoutes

  /** A piece of text whose only '"' is its last character. */
  predicate QuoteLast(p: string) {
    p != [] && p[|p| - 1] == '"' && '"' !in p[..|p| - 1]
  }

  /** An occurrence of such a pattern that starts inside such a piece ends on the piece's quote. */
  lemma OccurrenceInPiece(p: string, r: string, t: string, q: nat)
    requires QuoteLast(p) && QuoteLast(t) && OccursAt(p + r, t, q) && q < |p|
    ensures q + |t| == |p|
  {
    var s := p + r;
    assert forall i :: 0 <= i < |p| - 1 ==> p[i] == p[..|p| - 1][i];
    assert forall i :: q <= i < q + |t| ==> s[i] == s[q..q + |t|][i - q];
    assert s[|p| - 1] == '"' && s[q + |t| - 1] == '"';
    assert forall j :: 0 <= j < |t| - 1 ==> t[j] == t[..|t| - 1][j];
  }

  /** Finding a pattern in a text that starts with a piece in which it does not occur. */
  lemma {:induction false} FindAfter(a: string, b: string, t: string)
    requires forall q: nat :: q < |a| ==> !OccursAt(a + b, t, q)
    ensures Find(a + b, t) == (match Find(b, t) case None => None case Some(k) => Some(|a| + k))
    decreases |a|
  {
    if a == [] {
      assert a + b == b;
    } else {
      var s := a + b;
      assert !OccursAt(s, t, 0);
      if |s| >= |t| {
        assert s[..|t|] != t;
        assert s[1..] == a[1..] + b;
        forall q: nat | q < |a[1..]| ensures !OccursAt(a[1..] + b, t, q) {
          OccursShift(s, t, q);
        }
        FindAfter(a[1..], b, t);
      }
    }
  }

  /** A pattern with no earlier occurrence is found where a piece ends with it. */
  lemma FindHit(p: string, r: string, t: string)
    requires QuoteLast(p) && QuoteLast(t) && EndsWith(p, t)
    ensures Find(p + r, t) == Some(|p| - |t|)
  {
    var s := p + r;
    assert s[|p| - |t|..|p|] == p[|p| - |t|..];
    assert OccursAt(s, t, |p| - |t|);
    FindSpec(s, t);
    var f := Find(s, t);
    if f.Some? && f.value < |p| {
      OccurrenceInPiece(p, r, t, f.value);
    }
  }

  /** A piece that does not end with the pattern holds no occurrence of it. */
  lemma NoHit(p: string, r: string, t: string)
    requires QuoteLast(p) && QuoteLast(t) && !EndsWith(p, t)
    ensures forall q: nat :: q < |p| ==> !OccursAt(p + r, t, q)
  {
    forall q: nat | q < |p| && OccursAt(p + r, t, q) ensures false {
      OccurrenceInPiece(p, r, t, q);
    }
  }

  /** Text with no '"' holds no pattern that has one. */
  lemma NoQuoteNoFind(s: string, t: string)
    requires '"' !in s && QuoteLast(t)
    ensures Find(s, t).None?
  {
    FindSpec(s, t);
  }

  lemma PatternQuoteLast(key: string)
    requires '"' !in key
    ensures QuoteLast(key + "=\"")
  {
    var t := key + "=\"";
    assert t[..|t| - 1] == key + "=";
  }

  /** Skipping a leading piece that holds no `key="` leaves what `extract_attribute` reads unchanged. */
  lemma ExtractSkip(a: string, b: string, key: string)
    requires forall q: nat :: q < |a| ==> !OccursAt(a + b, key + "=\"", q)
    ensures ExtractAttribute(a + b, key) == ExtractAttribute(b, key)
  {
    var t := key + "=\"";
    FindAfter(a, b, t);
    match Find(b, t)
    case None =>
    case Some(k) =>
      assert (a + b)[|a| + k + |t|..] == b[k + |t|..];
      ExtractAttributeAt(b, key, k);
      ExtractAttributeAt(a + b, key, |a| + k);
  }

  /** What `extract_attribute` reads once it has found `key="`. */
  lemma ExtractAttributeAt(line: string, key: string, k: nat)
    requires Find(line, key + "=\"") == Some(k)
    ensures k + |key| + 2 <= |line|
    ensures ExtractAttribute(line, key) == QuotedValue(line[k + |key| + 2..])
  {
  }

  /** `extract_attribute` on a piece ending with `key="` followed by a quoted value. */
  lemma ExtractHit(p: string, v: string, r: string, key: string)
    requires '"' !in key && QuoteLast(p) && EndsWith(p, key + "=\"") && '"' !in v
    ensures ExtractAttribute(p + (v + "\"" + r), key) == if v == [] then None else Some(v)
  {
    var t := key + "=\"";
    PatternQuoteLast(key);
    FindHit(p, v + "\"" + r, t);
    var s := p + (v + "\"" + r);
    assert s[|p| - |t| + |t|..] == v + "\"" + r;
    ClosingQuote(v, r);
  }

  /** The first '"' after a value with none is the one that closes it. */
  lemma ClosingQuote(v: string, r: string)
    requires '"' !in v
    ensures QuotedValue(v + "\"" + r) == if v == [] then None else Some(v)
  {
    var s := v + "\"" + r;
    FindCharSpec(s, '"');
    assert s[|v|] == '"';
    assert s[..|v|] == v;
  }

  /** The attributes the writer emits. */
  datatype Key = TvgId | TvgName | GroupTitle | TvgLogo

  function KeyName(k: Key): string {
    match k
    case TvgId => "tvg-id"
    case TvgName => "tvg-name"
    case GroupTitle => "group-title"
    case TvgLogo => "tvg-logo"
  }

  /** The last two characters of each name, which tell the names apart. */
  function LastTwo(k: Key): (char, char) {
    match k
    case TvgId => ('i', 'd')
    case TvgName => ('m', 'e')
    case GroupTitle => ('l', 'e')
    case TvgLogo => ('g', 'o')
  }

  lemma KeyNameEnd(k: Key)
    ensures var n := KeyName(k); |n| >= 2 && (n[|n| - 2], n[|n| - 1]) == LastTwo(k)
  {
  }

  /** No name holds a '"'. */
  lemma KeyNameQuoteFree(k: Key)
    ensures '"' !in KeyName(k)
  {
    match k
    case TvgId =>
    case TvgName =>
    case GroupTitle =>
    case TvgLogo =>
  }

  /** No name holds a line break. */
  lemma KeyNameOneLine(k: Key)
    ensures OneLine(KeyName(k))
  {
    match k
    case TvgId =>
    case TvgName =>
    case GroupTitle =>
    case TvgLogo =>
  }

  /**
   * The opening `name="` of an attribute ends with the pattern of a known key exactly when it
   * is that key's: no name ends another.
   */
  lemma KeyEnds(x: string, k0: Key, k: Key)
    ensures EndsWith(x + " " + KeyName(k0) + "=\"", KeyName(k) + "=\"") <==> k == k0
  {
    var n0 := KeyName(k0);
    var n := KeyName(k);
    var s := x + " " + n0 + "=\"";
    var t := n + "=\"";
    KeyNameEnd(k0);
    KeyNameEnd(k);
    if k == k0 {
      assert s == (x + " ") + t;
      assert s[|s| - |t|..] == t;
    } else {
      assert (s[|s| - 4], s[|s| - 3]) == LastTwo(k0);
      assert (t[|t| - 4], t[|t| - 3]) == LastTwo(k);
      assert |s| >= |t| ==> s[|s| - |t|..][|t| - 4] == s[|s| - 4] && s[|s| - |t|..][|t| - 3] == s[|s| - 3];
    }
  }

  /** One attribute as the writer lays it out: ` name="value"`. */
  function Attr(key: Key, value: string): string {
    " " + KeyName(key) + "=\"" + value + "\""
  }

  /** An attribute list as the writer lays it out, pair after pair. */
  function AttrText(attrs: seq<(Key, string)>): string {
    if attrs == [] then [] else Attr(attrs[0].0, attrs[0].1) + AttrText(attrs[1..])
  }

  /** The value `extract_attribute` should find: that of the first pair with the key, if not empty. */
  function FirstValue(attrs: seq<(Key, string)>, key: Key): Option<string> {
    if attrs == [] then None
    else if attrs[0].0 == key then (if attrs[0].1 == [] then None else Some(attrs[0].1))
    else FirstValue(attrs[1..], key)
  }

  /**
   * A value the writer can quote without confusing the reader: it holds no '"', and it does not
   * end with '=', which together with the closing quote would read as the start of an attribute.
   */
  predicate QuotableValue(v: string) {
    '"' !in v && (v == [] || v[|v| - 1] != '=')
  }

  predicate AttrsOk(attrs: seq<(Key, string)>) {
    forall i :: 0 <= i < |attrs| ==> QuotableValue(attrs[i].1)
  }

  /** An attribute splits into its opening `name="` and its quoted value. */
  lemma AttrSplit(lead: string, key: Key, v: string, rest: string)
    ensures lead + Attr(key, v) + rest == (lead + " " + KeyName(key) + "=\"") + ((v + "\"") + rest)
  {
    var o := " " + KeyName(key) + "=\"";
    assert Attr(key, v) == o + (v + "\"");
    ConcatAssoc(lead, o, v + "\"");
    ConcatAssoc(lead + o, v + "\"", rest);
  }

  /** The opening `name="` of an attribute has its only '"' at its end. */
  lemma OpeningQuoteLast(lead: string, key: Key)
    requires '"' !in lead
    ensures QuoteLast(lead + " " + KeyName(key) + "=\"")
  {
    var p := lead + " " + KeyName(key) + "=\"";
    KeyNameQuoteFree(key);
    assert p[..|p| - 1] == lead + " " + KeyName(key) + "=";
  }

  /** A quoted value that does not end with '=' holds no `key="`. */
  lemma ValueNoPattern(v: string, key: Key)
    requires QuotableValue(v)
    ensures QuoteLast(v + "\"") && !EndsWith(v + "\"", KeyName(key) + "=\"")
  {
    var p := v + "\"";
    var t := KeyName(key) + "=\"";
    KeyNameQuoteFree(key);
    assert p[..|p| - 1] == v;
    assert t[|t| - 2] == '=';
    assert |p| >= |t| ==> p[|p| - |t|..][|t| - 2] == p[|p| - 2];
  }

  /** The attribute with the key is the one read. */
  lemma ExtractAttrHit(lead: string, v: string, rest: string, key: Key)
    requires '"' !in lead && '"' !in v
    ensures ExtractAttribute(lead + Attr(key, v) + rest, KeyName(key)) == if v == [] then None else Some(v)
  {
    OpeningQuoteLast(lead, key);
    KeyEnds(lead, key, key);
    KeyNameQuoteFree(key);
    AttrSplit(lead, key, v, rest);
    ExtractHit(lead + " " + KeyName(key) + "=\"", v, rest, KeyName(key));
  }

  /** An attribute with another key is passed over, value and all. */
  lemma ExtractAttrSkip(lead: string, k0: Key, v: string, rest: string, key: Key)
    requires '"' !in lead && k0 != key && QuotableValue(v)
    ensures ExtractAttribute(lead + Attr(k0, v) + rest, KeyName(key)) == ExtractAttribute(rest, KeyName(key))
  {
    var t := KeyName(key) + "=\"";
    KeyNameQuoteFree(key);
    PatternQuoteLast(KeyName(key));
    var p := lead + " " + KeyName(k0) + "=\"";
    var p2 := v + "\"";
    OpeningQuoteLast(lead, k0);
    KeyEnds(lead, k0, key);
    ValueNoPattern(v, key);
    AttrSplit(lead, k0, v, rest);
    NoHit(p, p2 + rest, t);
    ExtractSkip(p, p2 + rest, KeyName(key));
    NoHit(p2, rest, t);
    ExtractSkip(p2, rest, KeyName(key));
  }

  /**
   * Between a lead and a tail with no '"', `extract_attribute` finds the value of the first
   * attribute with the key, and nothing when that value is empty or no attribute has the key.
   */
  lemma {:induction false} ExtractFromAttrs(lead: string, attrs: seq<(Key, string)>, tail: string, key: Key)
    requires '"' !in lead && '"' !in tail && AttrsOk(attrs)
    ensures ExtractAttribute(lead + AttrText(attrs) + tail, KeyName(key)) == FirstValue(attrs, key)
    decreases |attrs|
  {
    if attrs == [] {
      assert lead + AttrText(attrs) + tail == lead + tail;
      KeyNameQuoteFree(key);
      PatternQuoteLast(KeyName(key));
      NoQuoteNoFind(lead + tail, KeyName(key) + "=\"");
    } else {
      var k0 := attrs[0].0;
      var v0 := attrs[0].1;
      var rest := AttrText(attrs[1..]) + tail;
      ConcatAssoc(lead, Attr(k0, v0), AttrText(attrs[1..]));
      ConcatAssoc(lead + Attr(k0, v0), AttrText(attrs[1..]), tail);
      assert lead + AttrText(attrs) + tail == lead + Attr(k0, v0) + rest;
      if k0 == key {
        ExtractAttrHit(lead, v0, rest, key);
      } else {
        ExtractAttrSkip(lead, k0, v0, rest, key);
        assert AttrsOk(attrs[1..]) by {
          forall i | 0 <= i < |attrs[1..]| ensures QuotableValue(attrs[1..][i].1) {
            assert attrs[1..][i] == attrs[i + 1];
          }
        }
        var none: string := [];
        assert none + AttrText(attrs[1..]) == AttrText(attrs[1..]);
        ExtractFromAttrs(none, attrs[1..], tail, key);
      }
    }
  }

  lemma {:induction false} AttrTextAppend(a: seq<(Key, string)>, b: seq<(Key, string)>)
    ensures AttrText(a + b) == AttrText(a) + AttrText(b)
    decreases |a|
  {
    if a != [] {
      assert (a + b)[1..] == a[1..] + b;
      AttrTextAppend(a[1..], b);
      ConcatAssoc(Attr(a[0].0, a[0].1), AttrText(a[1..]), AttrText(b));
    } else {
      assert a + b == b;
    }
  }

  /** The pair an optional attribute contributes: none when the field is absent. */
  function OptionalPair(key: Key, v: Option<string>): seq<(Key, string)> {
    match v
    case None => []
    case Some(x) => [(key, x)]
  }

  /** The attributes of a channel's `#EXTINF:` line, in the order the writer emits them. */
  function AttrsOf(ch: Channel): seq<(Key, string)> {
    OptionalPair(TvgId, ch.tvgId) + ([(TvgName, ch.name)] + ([(GroupTitle, ch.group)] + OptionalPair(TvgLogo, ch.logoUrl)))
  }

  lemma OptionalAttrText(key: Key, v: Option<string>)
    ensures OptionalAttr(KeyName(key), v) == AttrText(OptionalPair(key, v))
  {
    match v
    case None =>
    case Some(x) =>
      assert AttrText([(key, x)]) == Attr(key, x) + AttrText([]);
  }

  lemma AttrText1(key: Key, v: string)
    ensures AttrText([(key, v)]) == Attr(key, v)
  {
    assert AttrText([(key, v)]) == Attr(key, v) + AttrText([]);
  }

  lemma NameOpening()
    ensures " " + KeyName(TvgName) + "=\"" == " tvg-name=\""
  {
  }

  lemma GroupOpening()
    ensures "\"" + (" " + KeyName(GroupTitle) + "=\"") == "\" group-title=\""
  {
  }

  /** The name and group attributes, as the writer's format string lays them out. */
  lemma NameGroupText(name: string, group: string)
    ensures " tvg-name=\"" + name + "\" group-title=\"" + group + "\""
      == Attr(TvgName, name) + Attr(GroupTitle, group)
  {
    var n := Attr(TvgName, name);
    var g := Attr(GroupTitle, group);
    var q := "\"";
    var o := " " + KeyName(GroupTitle) + "=\"";
    NameOpening();
    GroupOpening();
    calc {
      " tvg-name=\"" + name + "\" group-title=\"" + group + q;
      " tvg-name=\"" + name + (q + o) + group + q;
      { ConcatAssoc(" tvg-name=\"" + name, q, o); }
      n + o + group + q;
      { ConcatAssoc(n, o, group); ConcatAssoc(n, o + group, q); }
      n + g;
    }
  }

  /** The attribute text of a channel: optional `tvg-id`, name, group, optional `tvg-logo`. */
  lemma AttrsOfText(ch: Channel)
    ensures AttrText(AttrsOf(ch)) == OptionalAttr("tvg-id", ch.tvgId)
      + (Attr(TvgName, ch.name) + (Attr(GroupTitle, ch.group) + OptionalAttr("tvg-logo", ch.logoUrl)))
  {
    var logoPart := OptionalPair(TvgLogo, ch.logoUrl);
    var groupPart := [(GroupTitle, ch.group)] + logoPart;
    var namePart := [(TvgName, ch.name)] + groupPart;
    OptionalAttrText(TvgId, ch.tvgId);
    OptionalAttrText(TvgLogo, ch.logoUrl);
    AttrTextAppend(OptionalPair(TvgId, ch.tvgId), namePart);
    AttrTextAppend([(TvgName, ch.name)], groupPart);
    AttrTextAppend([(GroupTitle, ch.group)], logoPart);
    AttrText1(TvgName, ch.name);
    AttrText1(GroupTitle, ch.group);
  }

  /** The writer's line is the `#EXTINF:-1` lead, the attribute list, a comma and the name. */
  lemma ExtinfLayout(ch: Channel)
    ensures ExtinfLineOf(ch) == "#EXTINF:-1" + AttrText(AttrsOf(ch)) + ("," + ch.name)
  {
    var lead := "#EXTINF:-1";
    var a := OptionalAttr("tvg-id", ch.tvgId);
    var b := OptionalAttr("tvg-logo", ch.logoUrl);
    var n := Attr(TvgName, ch.name);
    var g := Attr(GroupTitle, ch.group);
    var s1 := " tvg-name=\"";
    var s2 := "\" group-title=\"";
    var s3 := "\"";
    var mid := s1 + ch.name + s2 + ch.group + s3;
    var tail := "," + ch.name;
    NameGroupText(ch.name, ch.group);
    AttrsOfText(ch);
    assert AttrText(AttrsOf(ch)) == a + mid + b by {
      ConcatAssoc(n, g, b);
      ConcatAssoc(a, n + g, b);
    }
    calc {
      ExtinfLineOf(ch);
      lead + a + s1 + ch.name + s2 + ch.group + s3 + b + "," + ch.name;
      { ConcatAssoc(lead + a, s1, ch.name); }
      (lead + a) + (s1 + ch.name) + s2 + ch.group + s3 + b + "," + ch.name;
      { ConcatAssoc(lead + a, s1 + ch.name, s2); }
      (lead + a) + (s1 + ch.name + s2) + ch.group + s3 + b + "," + ch.name;
      { ConcatAssoc(lead + a, s1 + ch.name + s2, ch.group); }
      (lead + a) + (s1 + ch.name + s2 + ch.group) + s3 + b + "," + ch.name;
      { ConcatAssoc(lead + a, s1 + ch.name + s2 + ch.group, s3); }
      (lead + a) + mid + b + "," + ch.name;
      { ConcatAssoc(lead, a, mid); }
      lead + (a + mid) + b + "," + ch.name;
      { ConcatAssoc(lead, a + mid, b); }
      lead + (a + mid + b) + "," + ch.name;
      { ConcatAssoc(lead + (a + mid + b), ",", ch.name); }
      lead + (a + mid + b) + tail;
    }
  }

  /** The fields of a channel the writer can put on one `#EXTINF:` line and read back. */
  predicate ExtinfFieldsOk(ch: Channel) {
    && QuotableValue(ch.name) && QuotableValue(ch.group)
    && (ch.tvgId.Some? ==> ch.tvgId.value != [] && QuotableValue(ch.tvgId.value))
    && (ch.logoUrl.Some? ==> ch.logoUrl.value != [] && QuotableValue(ch.logoUrl.value))
  }

  lemma FirstValueCons(p: (Key, string), rest: seq<(Key, string)>, key: Key)
    ensures FirstValue([p] + rest, key)
      == if p.0 == key then (if p.1 == [] then None else Some(p.1)) else FirstValue(rest, key)
  {
    assert ([p] + rest)[1..] == rest;
  }

  lemma FirstValueOptional(k: Key, v: Option<string>, rest: seq<(Key, string)>, key: Key)
    requires v.Some? ==> v.value != []
    ensures FirstValue(OptionalPair(k, v) + rest, key) == if k == key && v.Some? then v else FirstValue(rest, key)
  {
    match v
    case None =>
      assert OptionalPair(k, v) + rest == rest;
    case Some(x) =>
      FirstValueCons((k, x), rest, key);
  }

  /** Each key is found once in a channel's attributes, with the channel's own value. */
  lemma AttrsOfValues(ch: Channel, key: Key)
    requires ExtinfFieldsOk(ch)
    ensures FirstValue(AttrsOf(ch), key) == match key
      case TvgId => ch.tvgId
      case TvgName => if ch.name == [] then None else Some(ch.name)
      case GroupTitle => if ch.group == [] then None else Some(ch.group)
      case TvgLogo => ch.logoUrl
  {
    var logoPart := OptionalPair(TvgLogo, ch.logoUrl);
    var groupPart := [(GroupTitle, ch.group)] + logoPart;
    var namePart := [(TvgName, ch.name)] + groupPart;
    FirstValueOptional(TvgId, ch.tvgId, namePart, key);
    FirstValueCons((TvgName, ch.name), groupPart, key);
    FirstValueCons((GroupTitle, ch.group), logoPart, key);
    FirstValueOptional(TvgLogo, ch.logoUrl, [], key);
    assert logoPart + [] == logoPart;
  }

  lemma AttrsOfOk(ch: Channel)
    requires ExtinfFieldsOk(ch)
    ensures AttrsOk(AttrsOf(ch))
  {
    var attrs := AttrsOf(ch);
    assert forall p :: p in attrs ==> QuotableValue(p.1);
    forall i | 0 <= i < |attrs| ensures QuotableValue(attrs[i].1) {
      assert attrs[i] in attrs;
    }
  }

  /** Trimming the written line only trims the name at its end. */
  lemma TrimExtinf(ch: Channel)
    ensures Trim(ExtinfLineOf(ch)) == "#EXTINF:-1" + AttrText(AttrsOf(ch)) + TrimEnd("," + ch.name)
  {
    var lead := "#EXTINF:-1" + AttrText(AttrsOf(ch));
    var tail := "," + ch.name;
    ExtinfLayout(ch);
    assert (lead + tail)[0] == '#';
    assert TrimStart(lead + tail) == lead + tail;
    assert !AllSpace(tail) by {
      assert !IsSpace(tail[0]);
    }
    TrimEndAppend(lead, tail);
  }

  /** The trimmed tail of the line: the comma, then the name without its trailing white space. */
  lemma TrimmedTail(name: string)
    ensures var t := TrimEnd("," + name);
      t != [] && t[0] == ',' && (name == [] ==> t == ",")
      && (QuotableValue(name) ==> '"' !in t)
  {
    var s := "," + name;
    TrimEndSpec(s);
    var t := TrimEnd(s);
    assert !IsSpace(s[0]);
    assert t[0] == s[0];
    if name == [] {
      assert s == ",";
    }
  }

  /** A line that ends with the separator has nothing after its last separator. */
  lemma AfterLastAtEnd(s: string, c: char)
    requires s != [] && s[|s| - 1] == c
    ensures AfterLast(s, c) == []
  {
  }

  /** Each attribute the reader looks for in a written line has the value the writer gave it. */
  lemma ReadAttr(ch: Channel, key: Key)
    requires ExtinfFieldsOk(ch)
    ensures ExtractAttribute(Trim(ExtinfLineOf(ch)), KeyName(key)) == FirstValue(AttrsOf(ch), key)
  {
    var tail := TrimEnd("," + ch.name);
    TrimExtinf(ch);
    TrimmedTail(ch.name);
    AttrsOfOk(ch);
    LeadQuoteFree();
    ExtractFromAttrs("#EXTINF:-1", AttrsOf(ch), tail, key);
  }

  lemma LeadQuoteFree()
    ensures '"' !in "#EXTINF:-1"
  {
  }

  /** A written line is an `#EXTINF:` line, and it ends with a comma when the name is empty. */
  lemma ExtinfShape(ch: Channel)
    ensures var line := Trim(ExtinfLineOf(ch));
      StartsWith(line, ExtinfTag) && (ch.name == [] ==> line[|line| - 1] == ',')
  {
    var line := Trim(ExtinfLineOf(ch));
    TrimExtinf(ch);
    TrimmedTail(ch.name);
    assert line[..|ExtinfTag|] == ExtinfTag;
  }

  /** With an empty name, the reader's fallback, the text after the last comma, is empty too. */
  lemma EmptyNameRead(ch: Channel)
    requires ExtinfFieldsOk(ch) && ch.name == []
    ensures NameOf(Trim(ExtinfLineOf(ch))) == []
  {
    var line := Trim(ExtinfLineOf(ch));
    ReadAttr(ch, TvgName);
    AttrsOfValues(ch, TvgName);
    ExtinfShape(ch);
    AfterLastAtEnd(line, ',');
    ExtractDisplayNameSpec(line);
  }

  /**
   * The reader gets back from a written `#EXTINF:` line the channel's name, group, logo and
   * `tvg-id`.
   */
  lemma ReadExtinf(ch: Channel)
    requires ExtinfFieldsOk(ch)
    ensures var line := Trim(ExtinfLineOf(ch));
      && StartsWith(line, ExtinfTag)
      && NameOf(line) == ch.name
      && ExtractAttribute(line, "group-title").GetOr("") == ch.group
      && ExtractAttribute(line, "tvg-logo") == ch.logoUrl
      && ExtractAttribute(line, "tvg-id") == ch.tvgId
  {
    ExtinfShape(ch);
    ReadAttr(ch, TvgId);
    ReadAttr(ch, TvgName);
    ReadAttr(ch, GroupTitle);
    ReadAttr(ch, TvgLogo);
    AttrsOfValues(ch, TvgId);
    AttrsOfValues(ch, TvgName);
    AttrsOfValues(ch, GroupTitle);
    AttrsOfValues(ch, TvgLogo);
    if ch.name == [] {
      EmptyNameRead(ch);
    }
  }

  /** A stream URL the reader takes back as it is: one non-blank line, trimmed, not a comment. */
  predicate UrlOk(u: string) {
    u != [] && Trim(u) == u && u[0] != '#' && OneLine(u)
  }

  /**
   * A channel the writer's output carries back to the reader: its text fields fit on the
   * `#EXTINF:` line and its URL on the line after.
   */
  predicate Writable(ch: Channel) {
    && ExtinfFieldsOk(ch) && OneLine(ch.name) && OneLine(ch.group)
    && (ch.tvgId.Some? ==> OneLine(ch.tvgId.value))
    && (ch.logoUrl.Some? ==> OneLine(ch.logoUrl.value))
    && UrlOk(ch.streamUrl)
  }

  lemma {:induction false} AttrTextOneLine(attrs: seq<(Key, string)>)
    requires forall i :: 0 <= i < |attrs| ==> OneLine(attrs[i].1)
    ensures OneLine(AttrText(attrs))
    decreases |attrs|
  {
    if attrs != [] {
      KeyNameOneLine(attrs[0].0);
      assert forall i :: 0 <= i < |attrs[1..]| ==> attrs[1..][i] == attrs[i + 1];
      AttrTextOneLine(attrs[1..]);
    }
  }

  lemma ExtinfOneLine(ch: Channel)
    requires Writable(ch)
    ensures OneLine(ExtinfLineOf(ch))
  {
    var attrs := AttrsOf(ch);
    ExtinfLayout(ch);
    assert forall p :: p in attrs ==> OneLine(p.1);
    forall i | 0 <= i < |attrs| ensures OneLine(attrs[i].1) {
      assert attrs[i] in attrs;
    }
    AttrTextOneLine(attrs);
    LeadTailOneLine(AttrText(attrs), ch.name);
  }

  lemma LeadTailOneLine(x: string, name: string)
    requires OneLine(x) && OneLine(name)
    ensures OneLine("#EXTINF:-1" + x + ("," + name))
  {
  }

  lemma WritableAll(chs: seq<Channel>)
    requires forall k :: 0 <= k < |chs| ==> Writable(chs[k])
    ensures WritableLines(chs)
  {
    forall k | 0 <= k < |chs| ensures OneLine(ExtinfLineOf(chs[k])) && OneLine(chs[k].streamUrl) {
      ExtinfOneLine(chs[k]);
    }
  }

  /** The `#EXTINF:` line of the `j`-th channel and its URL line are lines `2j` and `2j + 1`. */
  lemma {:induction false} EntryLinesAt(chs: seq<Channel>, j: nat)
    requires j < |chs|
    ensures |EntryLines(chs)| == 2 * |chs|
    ensures EntryLines(chs)[2 * j] == ExtinfLineOf(chs[j]) && EntryLines(chs)[2 * j + 1] == chs[j].streamUrl
    decreases |chs|
  {
    var init := chs[..|chs| - 1];
    var last := [ExtinfLineOf(chs[|chs| - 1]), chs[|chs| - 1].streamUrl];
    assert EntryLines(chs) == EntryLines(init) + last;
    EntryLinesLength(init);
    if j < |chs| - 1 {
      EntryLinesAt(init, j);
      assert init[j] == chs[j];
    }
  }

  lemma {:induction false} EntryLinesLength(chs: seq<Channel>)
    ensures |EntryLines(chs)| == 2 * |chs|
    decreases |chs|
  {
    if chs != [] {
      EntryLinesLength(chs[..|chs| - 1]);
    }
  }

  /** How the reader classifies the written lines: a header, then `#EXTINF:` and URL in turn. */
  predicate WrittenKinds(ks: seq<LineKind>, n: nat) {
    |ks| == 2 * n + 1 && ks[0] == Other
    && forall j :: 0 <= j < n ==> ks[2 * j + 1] == Extinf && ks[2 * j + 2] == Url
  }

  lemma KindsOfWritten(chs: seq<Channel>)
    requires forall k :: 0 <= k < |chs| ==> Writable(chs[k])
    ensures WrittenKinds(Kinds(["#EXTM3U"] + EntryLines(chs)), |chs|)
  {
    var lines := ["#EXTM3U"] + EntryLines(chs);
    var ks := Kinds(lines);
    EntryLinesLength(chs);
    KindAt(lines, 0);
    HeaderKind();
    forall j | 0 <= j < |chs| ensures ks[2 * j + 1] == Extinf && ks[2 * j + 2] == Url {
      EntryLinesKinds(chs, j);
      KindsOfEntry("#EXTM3U", EntryLines(chs), j);
    }
  }

  /** The `#EXTM3U` header is passed over like a comment. */
  lemma HeaderKind()
    ensures KindOf("#EXTM3U") == Other
  {
    TrimNoop("#EXTM3U");
  }

  lemma KindsOfEntry(header: string, es: seq<string>, j: nat)
    requires 2 * j + 1 < |es|
    requires KindOf(es[2 * j]) == Extinf && KindOf(es[2 * j + 1]) == Url
    ensures var ks := Kinds([header] + es);
      |ks| == |es| + 1 && ks[2 * j + 1] == Extinf && ks[2 * j + 2] == Url
  {
    var lines := [header] + es;
    assert lines[2 * j + 1] == es[2 * j];
    assert lines[2 * j + 2] == es[2 * j + 1];
    KindAt(lines, 2 * j + 1);
    KindAt(lines, 2 * j + 2);
  }

  lemma EntryLinesKinds(chs: seq<Channel>, j: nat)
    requires j < |chs| && Writable(chs[j])
    ensures |EntryLines(chs)| == 2 * |chs|
    ensures KindOf(EntryLines(chs)[2 * j]) == Extinf && KindOf(EntryLines(chs)[2 * j + 1]) == Url
  {
    EntryLinesAt(chs, j);
    ExtinfKind(chs[j]);
    UrlKind(chs[j].streamUrl);
  }

  lemma ExtinfKind(ch: Channel)
    ensures KindOf(ExtinfLineOf(ch)) == Extinf
  {
    ExtinfShape(ch);
  }

  lemma UrlKind(u: string)
    requires UrlOk(u)
    ensures KindOf(u) == Url
  {
  }

  /** The entries of the written text: line `2i + 1` with line `2i + 2`, for each channel `i`. */
  function Pairs(i: nat, n: nat): (r: seq<(nat, nat)>)
    ensures |r| == if i <= n then n - i else 0
    decreases n - i
  {
    if i >= n then [] else [(2 * i + 1, 2 * i + 2)] + Pairs(i + 1, n)
  }

  lemma {:induction false} PairsAt(i: nat, n: nat, k: nat)
    requires i + k < n
    ensures Pairs(i, n)[k] == (2 * (i + k) + 1, 2 * (i + k) + 2)
    decreases k
  {
    if k > 0 {
      PairsAt(i + 1, n, k - 1);
    }
  }

  /** The scan pairs each written `#EXTINF:` line with the URL line right after it. */
  lemma {:induction false} EntriesOfWritten(ks: seq<LineKind>, n: nat, i: nat)
    requires WrittenKinds(ks, n) && i <= n
    ensures Entries(ks, 2 * i + 1) == Pairs(i, n)
    decreases n - i
  {
    if i < n {
      var e := 2 * i + 1;
      assert ks[e] == Extinf && ks[e + 1] == Url;
      assert SkipToUrl(ks, e + 1) == e + 1;
      EntriesUnfold(ks, e, e + 1);
      EntriesOfWritten(ks, n, i + 1);
      assert 2 * (i + 1) + 1 == e + 2;
      assert Entries(ks, e) == [(e, e + 1)] + Entries(ks, e + 2);
      assert Pairs(i, n) == [(e, e + 1)] + Pairs(i + 1, n);
    }
  }

  /** The header line is not `#EXTINF:`, so the scan from line 0 is the scan from line 1. */
  lemma EntriesWritten(ks: seq<LineKind>, n: nat)
    requires WrittenKinds(ks, n)
    ensures Entries(ks, 0) == Pairs(0, n)
  {
    assert Entries(ks, 0) == Entries(ks, 1);
    EntriesOfWritten(ks, n, 0);
  }

  /** What reading back a written channel gives: the channel, with a fresh id and not live. */
  function Restamped(ch: Channel, idOf: string -> string): (r: Channel)
    ensures r.streamUrl == ch.streamUrl && r.id == idOf(ch.streamUrl) && !r.isLive
  {
    Channel(idOf(ch.streamUrl), ch.name, ch.group, ch.logoUrl, ch.streamUrl, false, ch.tvgId)
  }

  /** One written entry, its `#EXTINF:` line and its URL line, reads back as its channel. */
  lemma MakeChannelRead(ch: Channel, idOf: string -> string)
    requires Writable(ch)
    ensures MakeChannel(Trim(ExtinfLineOf(ch)), Trim(ch.streamUrl), idOf) == Restamped(ch, idOf)
  {
    ReadExtinf(ch);
  }

  lemma ParseWrittenAt(chs: seq<Channel>, idOf: string -> string, k: nat)
    requires forall i :: 0 <= i < |chs| ==> Writable(chs[i])
    requires k < |chs|
    requires Entries(Kinds(["#EXTM3U"] + EntryLines(chs)), 0) == Pairs(0, |chs|)
    ensures |Parse(["#EXTM3U"] + EntryLines(chs), idOf)| == |chs|
    ensures Parse(["#EXTM3U"] + EntryLines(chs), idOf)[k] == Restamped(chs[k], idOf)
  {
    var lines := ["#EXTM3U"] + EntryLines(chs);
    var es := Pairs(0, |chs|);
    EntriesValid(Kinds(lines), 0);
    ChannelsOfIndex(lines, es, idOf, k);
    PairsAt(0, |chs|, k);
    EntryLinesAt(chs, k);
    assert lines[2 * k + 1] == ExtinfLineOf(chs[k]);
    assert lines[2 * k + 2] == chs[k].streamUrl;
    MakeChannelRead(chs[k], idOf);
  }

  /**
   * The round trip: parsing the M3U text that `get_playlist_m3u` writes gives back every
   * channel, in order, with its name, group, logo, stream URL and tvg-id; the id is derived
   * again from the URL and the liveness flag starts out false.
   */
  lemma RoundTrip(chs: seq<Channel>, idOf: string -> string)
    requires forall k :: 0 <= k < |chs| ==> Writable(chs[k])
    ensures |Parse(Lines(WriteM3u(chs)), idOf)| == |chs|
    ensures forall k :: 0 <= k < |chs| ==> Parse(Lines(WriteM3u(chs)), idOf)[k] == Restamped(chs[k], idOf)
  {
    WritableAll(chs);
    WrittenLines(chs);
    KindsOfWritten(chs);
    EntriesWritten(Kinds(["#EXTM3U"] + EntryLines(chs)), |chs|);
    forall k | 0 <= k < |chs|
      ensures |Parse(["#EXTM3U"] + EntryLines(chs), idOf)| == |chs|
      ensures Parse(["#EXTM3U"] + EntryLines(chs), idOf)[k] == Restamped(chs[k], idOf)
    {
      ParseWrittenAt(chs, idOf, k);
    }
  }

  /** A channel list whose ids already follow its URLs and which holds no live flag survives the round trip unchanged. */
  lemma RoundTripExact(chs: seq<Channel>, idOf: string -> string)
    requires forall k :: 0 <= k < |chs| ==> Writable(chs[k])
    requires forall k :: 0 <= k < |chs| ==> chs[k].id == idOf(chs[k].streamUrl) && !chs[k].isLive
    ensures Parse(Lines(WriteM3u(chs)), idOf) == chs
  {
    RoundTrip(chs, idOf);
  }
}
