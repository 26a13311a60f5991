/** The file-tree name helpers: the extension of a file name, the icon shown
    for it, and the zero case of the size label. The two file-tree packages
    carry word-for-word copies of these helpers; both are this one module. */
module FileUtils {
  import opened Common

  /** `filename.split('.').pop()`: the last piece of the split, which always
      exists. */
  function LastSegment(name: string): string
  {
    var pieces := Split(name, ".");
    pieces[|pieces| - 1]
  }

  /** `getFileExtension`. The trailing `|| ''` never changes the result: it
      only replaces an empty (falsy) extension by the empty string. */
  function FileExtension(name: string): string
  {
    ToLower(LastSegment(name))
  }

  // ----- Splitting on one character -----

  /** A split on `c` of a text that starts with `c` opens with an empty piece. */
  lemma SplitConsSeparator(c: char, r: string)
    ensures Split([c] + r, [c]) == [""] + Split(r, [c])
  {
    SplitStep([c] + r, c);
    assert ([c] + r)[1..] == r;
  }

  /** A split on `c` of a text that starts with another character puts that
      character in front of the first piece. */
  lemma SplitConsOther(x: char, c: char, r: string)
    requires x != c
    ensures Split([x] + r, [c]) == [[x] + Split(r, [c])[0]] + Split(r, [c])[1..]
  {
    SplitStep([x] + r, c);
    assert ([x] + r)[1..] == r;
  }

  /** The step of SplitConcat for a leading separator. */
  lemma SplitConcatSeparatorStep(r: string, c: char, b: string)
    requires Split(r + [c] + b, [c]) == Split(r, [c]) + Split(b, [c])
    ensures Split([c] + r + [c] + b, [c]) == Split([c] + r, [c]) + Split(b, [c])
  {
    assert [c] + r + [c] + b == [c] + (r + [c] + b);
    SplitConsSeparator(c, r + [c] + b);
    SplitConsSeparator(c, r);
  }

  /** The step of SplitConcat for a leading other character. */
  lemma SplitConcatOtherStep(x: char, r: string, c: char, b: string)
    requires x != c
    requires Split(r + [c] + b, [c]) == Split(r, [c]) + Split(b, [c])
    ensures Split([x] + r + [c] + b, [c]) == Split([x] + r, [c]) + Split(b, [c])
  {
    assert [x] + r + [c] + b == [x] + (r + [c] + b);
    SplitConsOther(x, c, r + [c] + b);
    SplitConsOther(x, c, r);
    ConsPieceConcat(x, Split(r, [c]), Split(b, [c]));
  }

  /** Putting a character in front of the first piece commutes with
      appending further pieces. */
  lemma ConsPieceConcat(x: char, A: seq<string>, B: seq<string>)
    requires |A| >= 1
    ensures [[x] + (A + B)[0]] + (A + B)[1..] == ([[x] + A[0]] + A[1..]) + B
  {
    assert (A + B)[0] == A[0];
    assert (A + B)[1..] == A[1..] + B;
  }

  /** Splitting `a + c + b` on `c` is splitting `a` and `b` apart. */
  lemma {:induction false} SplitConcat(a: string, c: char, b: string)
    ensures Split(a + [c] + b, [c]) == Split(a, [c]) + Split(b, [c])
    decreases |a|
  {
    if |a| == 0 {
      assert a + [c] + b == [c] + b;
      SplitConsSeparator(c, b);
    } else {
      SplitConcat(a[1..], c, b);
      assert a == [a[0]] + a[1..];
      if a[0] == c {
        SplitConcatSeparatorStep(a[1..], c, b);
      } else {
        SplitConcatOtherStep(a[0], a[1..], c, b);
      }
    }
  }

  /** No piece of a split holds the separator character. */
  lemma {:induction false} SplitPiecesAvoid(s: string, c: char)
    ensures forall i :: 0 <= i < |Split(s, [c])| ==> c !in Split(s, [c])[i]
    decreases |s|
  {
    if |s| >= 1 {
      SplitPiecesAvoid(s[1..], c);
      var rest := Split(s[1..], [c]);
      if s[..1] != [c] {
        assert s[0] != c;
        assert c !in rest[0];
        var ps := Split(s, [c]);
        assert ps == [[s[0]] + rest[0]] + rest[1..];
        forall i | 0 <= i < |ps|
          ensures c !in ps[i]
        {
          if i > 0 {
            assert ps[i] == rest[i];
          }
        }
      }
    }
  }

  /** One step of a split on a single character. */
  lemma SplitStep(s: string, c: char)
    requires |s| >= 1
    ensures s[0] == c ==> Split(s, [c]) == [""] + Split(s[1..], [c])
    ensures s[0] != c ==>
      Split(s, [c]) == [[s[0]] + Split(s[1..], [c])[0]] + Split(s[1..], [c])[1..]
  {
    assert s[..1] == [s[0]];
  }

  /** Every piece lower-cased. */
  function LowerAll(ps: seq<string>): (r: seq<string>)
    ensures |r| == |ps|
    ensures forall i :: 0 <= i < |ps| ==> r[i] == ToLower(ps[i])
  {
    if |ps| == 0 then [] else [ToLower(ps[0])] + LowerAll(ps[1..])
  }

  /** Lower-casing commutes with the split on `.`, piece by piece. */
  lemma {:induction false} SplitLowered(s: string)
    ensures Split(ToLower(s), ".") == LowerAll(Split(s, "."))
    decreases |s|
  {
    if |s| >= 1 {
      var t := ToLower(s);
      SplitLowered(s[1..]);
      assert t[1..] == ToLower(s[1..]);
      assert s[0] == '.' <==> t[0] == '.';
      SplitStep(s, '.');
      SplitStep(t, '.');
      var rest := Split(s[1..], ".");
      if s[0] != '.' {
        assert ToLower([s[0]] + rest[0]) == [t[0]] + ToLower(rest[0]);
        assert LowerAll(rest)[1..] == LowerAll(rest[1..]);
      }
    }
  }

  lemma LowerIdempotent(s: string)
    ensures ToLower(ToLower(s)) == ToLower(s)
  {
  }

  lemma LowerKeepsDots(s: string)
    requires '.' !in s
    ensures '.' !in ToLower(s)
  {
    forall i | 0 <= i < |s|
      ensures ToLower(s)[i] != '.'
    {
      assert s[i] != '.';
    }
  }

  /** A text without capital letters is its own lower case. */
  lemma LowerOfLower(s: string)
    requires forall i :: 0 <= i < |s| ==> !('A' <= s[i] <= 'Z')
    ensures ToLower(s) == s
  {
  }

  // ----- getFileExtension -----

  /** The extension is the lower-cased text after the last `.`. */
  lemma ExtensionAfterLastDot(prefix: string, ext: string)
    requires '.' !in ext
    ensures FileExtension(prefix + "." + ext) == ToLower(ext)
  {
    SplitConcat(prefix, '.', ext);
    SplitWithoutSeparator(ext, ".");
  }

  /** A name without a `.` is its own extension, lower-cased. */
  lemma ExtensionWithoutDot(name: string)
    requires '.' !in name
    ensures FileExtension(name) == ToLower(name)
  {
    SplitWithoutSeparator(name, ".");
  }

  /** A name ending in `.` has the empty extension. */
  lemma ExtensionAfterTrailingDot(prefix: string)
    ensures FileExtension(prefix + ".") == ""
  {
    ExtensionAfterLastDot(prefix, "");
    assert prefix + "." + "" == prefix + ".";
  }

  /** The extension never holds a `.`, and is already lower case. */
  lemma ExtensionIsDotFreeLower(name: string)
    ensures '.' !in FileExtension(name)
    ensures ToLower(FileExtension(name)) == FileExtension(name)
  {
    SplitPiecesAvoid(name, '.');
    LowerKeepsDots(LastSegment(name));
    LowerIdempotent(LastSegment(name));
  }

  /** Names that differ only in the case of their letters have the same
      extension. */
  lemma ExtensionIgnoresCase(name: string)
    ensures FileExtension(ToLower(name)) == FileExtension(name)
  {
    var ps := Split(name, ".");
    SplitLowered(name);
    assert LastSegment(ToLower(name)) == ToLower(ps[|ps| - 1]);
    LowerIdempotent(ps[|ps| - 1]);
  }

  // ----- getFileIcon -----

  const Phone: string := "\U{1F4F1}"
  const BlueBook: string := "\U{1F4D8}"
  const Page: string := "\U{1F4C4}"
  const Memo: string := "\U{1F4DD}"
  const Globe: string := "\U{1F310}"
  const Palette: string := "\U{1F3A8}"
  const Picture: string := "\U{1F5BC}\U{FE0F}"

  /** The glyph for a name whose extension is not in the table. */
  const DefaultIcon: string := Page

  const IconMap: map<string, string> := map[
    "tsx" := Phone, "ts" := BlueBook, "js" := BlueBook, "jsx" := Phone,
    "json" := Page, "md" := Memo, "html" := Globe, "css" := Palette,
    "ico" := Picture, "png" := Picture, "jpg" := Picture, "jpeg" := Picture, "svg" := Picture]

  /** `getFileIcon`, with the lookup confined to the table's own keys. Every
      glyph is non-empty, so `|| '📄'` only supplies the default for a missing
      key. */
  function FileIcon(name: string): (icon: string)
    ensures icon == DefaultIcon || icon in IconMap.Values
  {
    var ext := FileExtension(name);
    if ext in IconMap then IconMap[ext] else DefaultIcon
  }

  /** The table: the thirteen listed extensions and their glyphs, and the
      default for every other one. */
  lemma IconTable(prefix: string, ext: string)
    requires '.' !in ext
    ensures ToLower(ext) in IconMap ==> FileIcon(prefix + "." + ext) == IconMap[ToLower(ext)]
    ensures ToLower(ext) !in IconMap ==> FileIcon(prefix + "." + ext) == DefaultIcon
  {
    ExtensionAfterLastDot(prefix, ext);
  }

  lemma IconMapEntries()
    ensures |IconMap| == 13
    ensures IconMap["tsx"] == Phone && IconMap["jsx"] == Phone
    ensures IconMap["ts"] == BlueBook && IconMap["js"] == BlueBook
    ensures IconMap["json"] == Page && IconMap["md"] == Memo
    ensures IconMap["html"] == Globe && IconMap["css"] == Palette
    ensures IconMap["ico"] == Picture && IconMap["png"] == Picture && IconMap["jpg"] == Picture
    ensures IconMap["jpeg"] == Picture && IconMap["svg"] == Picture
    ensures forall v :: v in IconMap.Values ==> |v| > 0
  {
  }

  /** The icon does not depend on the case of the name. */
  lemma IconIgnoresCase(name: string)
    ensures FileIcon(ToLower(name)) == FileIcon(name)
  {
    ExtensionIgnoresCase(name);
  }

  // ----- The lookup as written -----

  /** What `iconMap[ext]` yields on a plain object literal: an own key's
      glyph, or a member every object inherits. */
  datatype IconValue = Glyph(text: string) | Inherited(member: string)

  /** The members of `Object.prototype` whose names are all lower case, and
      so can equal a lower-cased extension. */
  const PrototypeMembers: set<string> := {"constructor", "__proto__"}

  /** `iconMap[ext] || '📄'` as the object literal answers it: an extension
      naming an inherited member yields that member (a function, or the
      prototype object), which is truthy and so is returned. */
  function FileIconAsWritten(name: string): (v: IconValue)
    ensures v.Inherited? <==> FileExtension(name) !in IconMap && FileExtension(name) in PrototypeMembers
  {
    var ext := FileExtension(name);
    if ext in IconMap then Glyph(IconMap[ext])
    else if ext in PrototypeMembers then Inherited(ext)
    else Glyph(DefaultIcon)
  }

  /** As written, a name such as `report.constructor` gets no glyph at all
      but the inherited member (for `constructor`, the `Object` function);
      with the lookup confined to own keys it gets the default glyph. */
  lemma InheritedMemberHasNoGlyph(prefix: string, ext: string)
    requires ext in PrototypeMembers
    ensures FileIconAsWritten(prefix + "." + ext) == Inherited(ext)
    ensures FileIcon(prefix + "." + ext) == DefaultIcon
  {
    assert '.' !in ext && ext !in IconMap;
    assert forall i :: 0 <= i < |ext| ==> !('A' <= ext[i] <= 'Z');
    LowerOfLower(ext);
    ExtensionAfterLastDot(prefix, ext);
  }

  /** Off the inherited member names the two lookups agree. */
  lemma AsWrittenAgreesOffPrototype(name: string)
    requires FileExtension(name) !in PrototypeMembers
    ensures FileIconAsWritten(name) == Glyph(FileIcon(name))
  {
  }

  // ----- formatFileSize -----

  /** `formatFileSize(0)`. Only the zero case is modelled: `None` stands
      for every other size, whose label is computed in floating point. */
  function FormatFileSize(bytes: real): (text: Option<string>)
    ensures bytes == 0.0 <==> text == Some("0 B")
  {
    if bytes == 0.0 then Some("0 B") else None
  }
}
