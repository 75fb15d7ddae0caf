/**
 * The `srcset` attribute of an image: the original file followed by every
 * requested rendition the CMS generated, each as `<url> <width>w`
 * (src/utils/compute-src-set-value.ts).
 */
module SrcSetAttribute {
  import opened Wrappers
  import opened JsText
  import opened JsValue
  import opened MediaTypes
  import opened ImageFormatGuard

  /** One candidate of a `srcset` list: a URL and its width descriptor. */
  function Descriptor(url: string, widthText: string): string {
    url + " " + widthText + "w"
  }

  /** `image.formats[name]` is present and truthy. */
  predicate Matches(renditions: map<string, Value>, name: string): (r: bool)
    ensures r ==> name in renditions
    ensures name in renditions && CheckIsImageFormat(renditions[name]) ==> r
  {
    name in renditions && Truthy(renditions[name])
  }

  /** The candidate of a rendition: its `url` (through the transform) and its `width`, as a template literal prints them. */
  function VariantDescriptor(rendition: Value, transformUrl: string -> string): (r: string)
    ensures var u := transformUrl(Text(Get(rendition, "url")));
      |r| > |u| + 1 && r[..|u| + 1] == u + " " && r[|r| - 1] == 'w'
  {
    Descriptor(transformUrl(Text(Get(rendition, "url"))), Text(Get(rendition, "width")))
  }

  /** The candidate of the original file. */
  function OriginalDescriptor(image: MediaImage, transformUrl: string -> string): (r: string)
    ensures var u := transformUrl(image.url);
      |r| > |u| + 1 && r[..|u| + 1] == u + " " && ParseInt(r[|u| + 1..]) == Some(image.width)
  {
    var u := transformUrl(image.url);
    var r := Descriptor(u, IntToString(image.width));
    assert r[|u| + 1..] == IntToString(image.width) + "w";
    ParseIntOfIntToString(image.width, "w");
    r
  }

  /** How many of the requested names match a rendition; a name requested twice counts twice. */
  function MatchCount(renditions: map<string, Value>, names: seq<string>): (r: nat)
    ensures r <= |names|
  {
    if names == [] then 0
    else MatchCount(renditions, names[..|names| - 1]) + (if Matches(renditions, names[|names| - 1]) then 1 else 0)
  }

  /** The candidates of the requested renditions, in the order requested. */
  function VariantEntries(renditions: map<string, Value>, names: seq<string>, transformUrl: string -> string): (r: seq<string>)
    ensures |r| == MatchCount(renditions, names)
  {
    if names == [] then []
    else
      var last := names[|names| - 1];
      VariantEntries(renditions, names[..|names| - 1], transformUrl)
        + (if Matches(renditions, last) then [VariantDescriptor(renditions[last], transformUrl)] else [])
  }

  /** No candidate is listed exactly when no requested name matches. */
  lemma {:induction false} EntriesEmptyIffNoMatch(renditions: map<string, Value>, names: seq<string>, transformUrl: string -> string)
    ensures VariantEntries(renditions, names, transformUrl) == []
        <==> forall i :: 0 <= i < |names| ==> !Matches(renditions, names[i])
  {
    if names != [] {
      var n := |names| - 1;
      EntriesEmptyIffNoMatch(renditions, names[..n], transformUrl);
      assert forall i :: 0 <= i < n ==> names[..n][i] == names[i];
    }
  }

  /** The identity, the transform used when the caller gives none. */
  function Identity(url: string): string { url }

  /**
   * The attribute: absent when no list of names is given, when the image has no
   * renditions, or when none of the requested names matches; otherwise the
   * original file's candidate followed by those of the matching renditions.
   */
  function SrcSet(image: MediaImage, formats: Option<seq<string>>, transformUrl: string -> string): (r: Option<string>)
    ensures r.Some? <==>
      formats.Some? && image.formats.Some?
      && exists i :: 0 <= i < |formats.value| && Matches(image.formats.value, formats.value[i])
  {
    if formats.None? || image.formats.None? then None
    else
      EntriesEmptyIffNoMatch(image.formats.value, formats.value, transformUrl);
      var entries := VariantEntries(image.formats.value, formats.value, transformUrl);
      if entries == [] then None
      else Some(Join(", ", [OriginalDescriptor(image, transformUrl)] + entries))
  }

  /** `computeSrcSetValue`: one pass over the requested names, appending each match. */
  method ComputeSrcSetValue(image: MediaImage, formats: Option<seq<string>>, transformUrl: Option<string -> string>)
    returns (r: Option<string>)
    ensures r == SrcSet(image, formats, transformUrl.GetOr(Identity))
  {
    if formats.None? || image.formats.None? {
      return None;
    }
    var tf := transformUrl.GetOr(Identity);
    var names := formats.value;
    var renditions := image.formats.value;
    var hasMatchedFormats := false;
    var result := OriginalDescriptor(image, tf);
    for i := 0 to |names|
      invariant hasMatchedFormats <==> VariantEntries(renditions, names[..i], tf) != []
      invariant result == Join(", ", [OriginalDescriptor(image, tf)] + VariantEntries(renditions, names[..i], tf))
    {
      EntriesStep(renditions, names, i, tf);
      if !Matches(renditions, names[i]) {
        continue;
      }
      hasMatchedFormats := true;
      var entry := VariantDescriptor(renditions[names[i]], tf);
      JoinStep(OriginalDescriptor(image, tf), VariantEntries(renditions, names[..i], tf), entry);
      result := result + ", " + entry;
    }
    assert names[..|names|] == names;
    if !hasMatchedFormats {
      return None;
    }
    return Some(result);
  }

  /** One more requested name adds its candidate when it matches, and nothing otherwise. */
  lemma EntriesStep(renditions: map<string, Value>, names: seq<string>, i: int, transformUrl: string -> string)
    requires 0 <= i < |names|
    ensures Matches(renditions, names[i]) ==>
      VariantEntries(renditions, names[..i + 1], transformUrl)
        == VariantEntries(renditions, names[..i], transformUrl) + [VariantDescriptor(renditions[names[i]], transformUrl)]
    ensures !Matches(renditions, names[i]) ==>
      VariantEntries(renditions, names[..i + 1], transformUrl) == VariantEntries(renditions, names[..i], transformUrl)
  {
    assert names[..i + 1][..i] == names[..i];
    var e := VariantEntries(renditions, names[..i], transformUrl);
    assert e + [] == e;
  }

  /** Appending a candidate to a list headed by the original adds a separator and the candidate. */
  lemma JoinStep(original: string, entries: seq<string>, entry: string)
    ensures Join(", ", [original] + (entries + [entry])) == Join(", ", [original] + entries) + ", " + entry
  {
    assert [original] + (entries + [entry]) == ([original] + entries) + [entry];
    JoinAppend(", ", [original] + entries, entry);
  }

  /** Requesting the names of `a` and then those of `b` lists the candidates of each, in turn. */
  lemma {:induction false} VariantEntriesAppend(renditions: map<string, Value>, a: seq<string>, b: seq<string>, transformUrl: string -> string)
    ensures VariantEntries(renditions, a + b, transformUrl)
         == VariantEntries(renditions, a, transformUrl) + VariantEntries(renditions, b, transformUrl)
    decreases |b|
  {
    if b == [] {
      assert a + b == a;
    } else {
      var b' := b[..|b| - 1];
      assert (a + b)[..|a + b| - 1] == a + b';
      assert (a + b)[|a + b| - 1] == b[|b| - 1];
      VariantEntriesAppend(renditions, a, b', transformUrl);
      var tail := if Matches(renditions, b[|b| - 1]) then [VariantDescriptor(renditions[b[|b| - 1]], transformUrl)] else [];
      assert VariantEntries(renditions, a + b, transformUrl) == VariantEntries(renditions, a + b', transformUrl) + tail;
      assert VariantEntries(renditions, b, transformUrl) == VariantEntries(renditions, b', transformUrl) + tail;
    }
  }

  /** Only the requested renditions matter: images that agree on the requested names give the same candidates. */
  lemma {:induction false} VariantEntriesIgnoreOthers(m1: map<string, Value>, m2: map<string, Value>, names: seq<string>, transformUrl: string -> string)
    requires forall i :: 0 <= i < |names| ==> (names[i] in m1 <==> names[i] in m2)
    requires forall i :: 0 <= i < |names| && names[i] in m1 ==> m1[names[i]] == m2[names[i]]
    ensures VariantEntries(m1, names, transformUrl) == VariantEntries(m2, names, transformUrl)
  {
    if names != [] {
      VariantEntriesIgnoreOthers(m1, m2, names[..|names| - 1], transformUrl);
    }
  }

  /** When every requested name holds a value that passes the rendition guard, each is listed, in the order requested, as its transformed URL and its width. */
  lemma {:induction false} AllRequestedPresent(renditions: map<string, Value>, names: seq<string>, fs: seq<ImageFormat>, transformUrl: string -> string)
    requires |fs| == |names|
    requires forall i :: 0 <= i < |names| ==> names[i] in renditions && AsImageFormat(renditions[names[i]]) == Some(fs[i])
    ensures var r := VariantEntries(renditions, names, transformUrl);
      |r| == |names| && forall i :: 0 <= i < |names| ==> r[i] == Descriptor(transformUrl(fs[i].url), IntToString(fs[i].width))
  {
    if names != [] {
      var n := |names| - 1;
      var init := VariantEntries(renditions, names[..n], transformUrl);
      assert |init| == n && forall i :: 0 <= i < n ==> init[i] == Descriptor(transformUrl(fs[i].url), IntToString(fs[i].width)) by {
        assert forall i :: 0 <= i < n ==> names[..n][i] == names[i] && fs[..n][i] == fs[i];
        AllRequestedPresent(renditions, names[..n], fs[..n], transformUrl);
      }
      var last := Descriptor(transformUrl(fs[n].url), IntToString(fs[n].width));
      assert VariantEntries(renditions, names, transformUrl) == init + [last] by {
        FormatDescriptor(renditions[names[n]], fs[n], transformUrl);
        assert Matches(renditions, names[n]);
      }
    }
  }

  /** The candidate of a value that passes the rendition guard is its transformed URL and its width. */
  lemma FormatDescriptor(v: Value, f: ImageFormat, transformUrl: string -> string)
    requires AsImageFormat(v) == Some(f)
    ensures Truthy(v)
    ensures VariantDescriptor(v, transformUrl) == Descriptor(transformUrl(f.url), IntToString(f.width))
  {
  }

  /** A rendition the CMS generated appears as its own URL and width when no transform is given. */
  lemma RenditionDescriptor(f: ImageFormat)
    ensures VariantDescriptor(ToValue(f), Identity) == f.url + " " + IntToString(f.width) + "w"
  {
    AcceptsEveryFormat(f, map[]);
    assert map[] + ToValue(f).fields == ToValue(f).fields;
    FormatDescriptor(ToValue(f), f, Identity);
  }

  /** A present attribute begins with the original file and holds one more candidate than there are matches. */
  lemma {:induction false} SrcSetLayout(image: MediaImage, formats: seq<string>, transformUrl: string -> string)
    requires image.formats.Some?
    requires SrcSet(image, Some(formats), transformUrl).Some?
    ensures var entries := VariantEntries(image.formats.value, formats, transformUrl);
      SrcSet(image, Some(formats), transformUrl).value
        == OriginalDescriptor(image, transformUrl) + ", " + Join(", ", entries)
  {
    var entries := VariantEntries(image.formats.value, formats, transformUrl);
    JoinCons(", ", OriginalDescriptor(image, transformUrl), entries);
  }

  /** Joining behind a first item puts the separator after it. */
  lemma JoinCons(sep: string, x: string, items: seq<string>)
    requires items != []
    ensures Join(sep, [x] + items) == x + sep + Join(sep, items)
  {
    assert ([x] + items)[1..] == items;
  }
}
