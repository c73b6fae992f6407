/** File-type classification of an imaging file by its extensions
    (the `KNOWN_EXTENSIONS` table and the `suffixes[-2:]` rule of the
    curator). File names are bare names: no directory part. */
module FileTypes {
  import opened Text

  /** Extensions the curator recognises, keyed with their leading dot. */
  const KnownExtensions: map<string, string> :=
    map[".dcm" := "DICOM", ".dicom" := "DICOM", ".nii.gz" := "NIFTI", ".nii" := "NIFTI"]

  /** Prefix every piece with a dot. */
  function Dotted(pieces: seq<string>): (r: seq<string>)
    ensures |r| == |pieces|
    ensures forall i :: 0 <= i < |r| ==> r[i] == "." + pieces[i]
  {
    if pieces == [] then [] else ["." + pieces[0]] + Dotted(pieces[1..])
  }

  /** `pathlib.PurePath(name).suffixes`: nothing for a name ending in a dot;
      otherwise the leading dots are ignored and every dot-separated piece
      after the first becomes a suffix. */
  function Suffixes(name: string): (r: seq<string>)
    ensures forall i :: 0 <= i < |r| ==> |r[i]| >= 1 && r[i][0] == '.' && '.' !in r[i][1..]
  {
    if name != [] && name[|name| - 1] == '.' then []
    else
      var pieces := Split(LStrip(name, '.'), '.');
      var r := Dotted(pieces[1..]);
      assert forall i :: 0 <= i < |r| ==> r[i][1..] == pieces[1..][i];
      r
  }

  function Concat(ss: seq<string>): string {
    if ss == [] then "" else ss[0] + Concat(ss[1..])
  }

  /** `"".join(suffixes[-2:])`: the last two suffixes, or all of them when
      there are fewer. */
  function SuffixKey(name: string): string {
    var sfx := Suffixes(name);
    if |sfx| <= 2 then Concat(sfx) else Concat(sfx[|sfx| - 2..])
  }

  /** `KNOWN_EXTENSIONS.get(suffix, suffix[1:])`. */
  function FileType(name: string): string {
    var key := SuffixKey(name);
    if key in KnownExtensions then KnownExtensions[key]
    else if key == "" then ""
    else key[1..]
  }

  lemma {:induction false} LemmaJoinSnoc(parts: seq<string>, sep: char, last: string)
    requires |parts| >= 1
    ensures Join(parts + [last], sep) == Join(parts, sep) + [sep] + last
    decreases |parts|
  {
    if |parts| > 1 {
      assert (parts + [last])[1..] == parts[1..] + [last];
      LemmaJoinSnoc(parts[1..], sep, last);
    }
  }

  /** A separator-free last piece splits off the end. */
  lemma {:induction false} LemmaSplitSnoc(init: string, sep: char, last: string)
    requires sep !in last
    ensures Split(init + [sep] + last, sep) == Split(init, sep) + [last]
  {
    var parts := Split(init, sep) + [last];
    LemmaJoinSplit(init, sep);
    LemmaJoinSnoc(Split(init, sep), sep, last);
    LemmaSplitJoin(parts, sep);
  }

  /** The pieces of a name ending in two separator-free pieces. */
  lemma {:induction false} LemmaSplitTwo(stem: string, e1: string, e2: string)
    requires '.' !in e1 && '.' !in e2
    ensures Split(stem + "." + e1 + "." + e2, '.') == Split(stem, '.') + [e1] + [e2]
  {
    assert stem + "." + e1 + "." + e2 == (stem + "." + e1) + ['.'] + e2;
    LemmaSplitSnoc(stem + "." + e1, '.', e2);
    assert stem + "." + e1 == stem + ['.'] + e1;
    LemmaSplitSnoc(stem, '.', e1);
  }

  /** The suffixes of a name ending in two separator-free pieces end in
      those two pieces, dotted. */
  lemma {:induction false} LemmaSuffixesTwo(stem: string, e1: string, e2: string)
    requires stem != [] && stem[0] != '.'
    requires '.' !in e1 && '.' !in e2 && e2 != []
    ensures var sfx := Suffixes(stem + "." + e1 + "." + e2);
      |sfx| >= 2 && sfx[|sfx| - 2..] == ["." + e1, "." + e2]
  {
    var name := stem + "." + e1 + "." + e2;
    assert name[|name| - 1] == e2[|e2| - 1];
    assert LStrip(name, '.') == name;
    LemmaSplitTwo(stem, e1, e2);
    var pieces := Split(stem, '.') + [e1] + [e2];
    var sfx := Suffixes(name);
    assert sfx == Dotted(pieces[1..]);
  }

  /** The key of two suffixes is their concatenation. */
  lemma {:induction false} LemmaConcatTwo(a: string, b: string)
    ensures Concat([a, b]) == a + b
  {
    assert [a, b][1..] == [b];
    assert Concat([b]) == b + Concat([]);
  }

  /** A name whose last two suffixes are `a` and `b` has key `a + b`. */
  lemma {:induction false} LemmaSuffixKeyOfLastTwo(name: string, a: string, b: string)
    requires |Suffixes(name)| >= 2 && Suffixes(name)[|Suffixes(name)| - 2..] == [a, b]
    ensures SuffixKey(name) == a + b
  {
    var sfx := Suffixes(name);
    if |sfx| == 2 {
      assert sfx == sfx[|sfx| - 2..];
    }
    LemmaConcatTwo(a, b);
  }

  /** The type of a name, read off its key. */
  lemma {:induction false} LemmaFileTypeOfKey(name: string, key: string)
    requires SuffixKey(name) == key && key != ""
    ensures FileType(name) == if key in KnownExtensions then KnownExtensions[key] else key[1..]
  {
  }

  /** A name whose last dot-separated pieces are `e1` and `e2` (after some
      stem that does not start with a dot) is classified by ".e1.e2": the
      table's value when the table knows it, otherwise "e1.e2". */
  lemma {:induction false} LemmaTwoSuffixes(stem: string, e1: string, e2: string)
    requires stem != [] && stem[0] != '.'
    requires '.' !in e1 && '.' !in e2 && e2 != []
    ensures var key := "." + e1 + "." + e2;
      FileType(stem + "." + e1 + "." + e2)
        == if key in KnownExtensions then KnownExtensions[key] else e1 + "." + e2
  {
    var name := stem + "." + e1 + "." + e2;
    var key := "." + e1 + "." + e2;
    LemmaSuffixesTwo(stem, e1, e2);
    LemmaSuffixKeyOfLastTwo(name, "." + e1, "." + e2);
    LemmaRegroup(e1, e2);
    LemmaFileTypeOfKey(name, key);
    LemmaDropDot(e1, e2);
  }

  lemma {:induction false} LemmaRegroup(e1: string, e2: string)
    ensures ("." + e1) + ("." + e2) == "." + e1 + "." + e2
  {
  }

  lemma {:induction false} LemmaDropDot(e1: string, e2: string)
    ensures ("." + e1 + "." + e2)[1..] == e1 + "." + e2
  {
  }

  /** A dot-free stem with a single extension is classified by that
      extension alone: the table's value, or the extension itself. */
  lemma {:induction false} LemmaOneSuffix(stem: string, ext: string)
    requires '.' !in stem && stem != []
    requires '.' !in ext && ext != []
    ensures FileType(stem + "." + ext)
      == if "." + ext in KnownExtensions then KnownExtensions["." + ext] else ext
  {
    var name := stem + "." + ext;
    assert name[|name| - 1] == ext[|ext| - 1];
    assert LStrip(name, '.') == name;
    assert name == stem + ['.'] + ext;
    LemmaSplitSnoc(stem, '.', ext);
    LemmaSplitNoSeparator(stem, '.');
    assert Split(name, '.') == [stem, ext];
    assert Suffixes(name) == ["." + ext];
    assert Concat(["." + ext]) == "." + ext;
    assert ("." + ext)[1..] == ext;
  }

  /** A name without any dot has no suffix and an empty type. */
  lemma {:induction false} LemmaNoSuffix(name: string)
    requires '.' !in name
    ensures FileType(name) == ""
  {
    if name != [] {
      assert name[|name| - 1] in name;
      assert name[0] in name;
    }
    assert LStrip(name, '.') == name;
    LemmaSplitNoSeparator(name, '.');
    assert Suffixes(name) == [];
    assert SuffixKey(name) == "";
    assert "" !in KnownExtensions;
  }

  /** A compressed NIfTI name is NIFTI, whatever its stem. */
  lemma {:induction false} LemmaCompressedNifti(stem: string)
    requires stem != [] && stem[0] != '.'
    ensures FileType(stem + ".nii.gz") == "NIFTI"
  {
    assert stem + ".nii.gz" == stem + "." + "nii" + "." + "gz";
    assert "." + "nii" + "." + "gz" == ".nii.gz";
    LemmaTwoSuffixes(stem, "nii", "gz");
  }

  /** A two-piece key ending in ".dcm" is not in the table. */
  lemma {:induction false} LemmaDcmKeyUnknown(part: string)
    requires part != []
    ensures "." + part + "." + "dcm" !in KnownExtensions
  {
    var key := "." + part + "." + "dcm";
    assert |key| >= 6 && key[|key| - 2] == 'c' && key[|key| - 1] == 'm';
    assert key != ".dicom" && key != ".nii.gz";
  }

  /** Only the last TWO suffixes are looked up: a DICOM file whose name has
      a dot before ".dcm" (a name built from a dotted UID, say) is not
      recognised as DICOM but typed by its last two pieces. */
  lemma {:induction false} LemmaDottedDicomName(stem: string, part: string)
    requires stem != [] && stem[0] != '.'
    requires part != [] && '.' !in part
    ensures FileType(stem + "." + part + ".dcm") == part + ".dcm"
  {
    assert stem + "." + part + ".dcm" == stem + "." + part + "." + "dcm";
    LemmaDcmKeyUnknown(part);
    LemmaTwoSuffixes(stem, part, "dcm");
  }

  /** A dot-free stem with the ".dcm" extension is DICOM. */
  lemma {:induction false} LemmaDicomName(stem: string)
    requires '.' !in stem && stem != []
    ensures FileType(stem + ".dcm") == "DICOM"
  {
    var ext := "dcm";
    assert '.' !in ext by { assert ext == ['d', 'c', 'm']; }
    assert stem + ".dcm" == stem + "." + ext;
    assert "." + ext == ".dcm";
    LemmaOneSuffix(stem, ext);
  }
}
