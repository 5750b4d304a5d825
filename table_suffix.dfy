/** TableCollectionReaderFactory.getSuffix: the suffixes by which a table collection
    file is matched to a reader, taken from the file's name. */
module TableSuffix {
  import opened Wrappers
  import opened JavaText

  /** The suffix after the last '.', then, if the name has another '.' before it, the
      suffix after the second-to-last '.'; a name without a suffix is an IOException. */
  function GetSuffix(name: string): (r: Result<seq<string>>)
    ensures r.Fail? <==> '.' !in name || name[|name| - 1] == '.'
    ensures r.Fail? ==> r.exc == IOException
    ensures r.Ok? ==> 1 <= |r.value| <= 2
    ensures r.Ok? ==> r.value[0] != [] && '.' !in r.value[0] && EndsWith(name, "." + r.value[0])
    ensures r.Ok? ==> (|r.value| == 2 <==> '.' in name[..|name| - |r.value[0]| - 1])
  {
    var dotIndex := LastIndexOf(name, '.');
    if dotIndex == -1 || dotIndex == |name| - 1 then
      LastCharDot(name);
      Fail(IOException)
    else
      var first := name[dotIndex + 1..];
      assert name[|name| - |first| - 1..] == "." + first;
      var secondIndex := LastIndexOf(name[..dotIndex], '.');
      if secondIndex == -1 then Ok([first])
      else Ok([first, name[secondIndex + 1..]])
  }

  lemma LastCharDot(name: string)
    ensures name != [] && name[|name| - 1] == '.' ==> LastIndexOf(name, '.') == |name| - 1
  {
  }

  /** The second suffix is the text between the two last dots, followed by the first
      suffix: it ends with the first suffix and holds exactly one '.'. */
  lemma SecondSuffix(name: string)
    requires GetSuffix(name).Ok? && |GetSuffix(name).value| == 2
    ensures var r := GetSuffix(name).value;
      exists middle :: r[1] == middle + "." + r[0] && '.' !in middle
    ensures EndsWith(name, GetSuffix(name).value[1])
    ensures EndsWith(GetSuffix(name).value[1], GetSuffix(name).value[0])
  {
    var r := GetSuffix(name).value;
    var dotIndex := LastIndexOf(name, '.');
    var secondIndex := LastIndexOf(name[..dotIndex], '.');
    var middle := name[secondIndex + 1..dotIndex];
    assert name[..dotIndex][secondIndex + 1..] == middle;
    assert r[1] == middle + "." + r[0];
    assert r[1][|r[1]| - |r[0]|..] == r[0];
  }

  /** A stem and a dot-free, non-empty extension: the extension is the first suffix, and
      the second exists exactly when the stem holds a '.'. */
  lemma SuffixOf(stem: string, extension: string)
    requires extension != [] && '.' !in extension
    ensures var r := GetSuffix(stem + "." + extension);
      r.Ok? && r.value[0] == extension && (|r.value| == 2 <==> '.' in stem)
  {
    var name := stem + "." + extension;
    assert name[|stem|] == '.';
    assert name[|stem| + 1..] == extension;
    LastAt(name, |stem|);
    assert name[..|name| - |extension| - 1] == stem;
  }

  lemma LastAt(s: string, p: nat)
    requires p < |s| && s[p] == '.' && '.' !in s[p + 1..]
    ensures LastIndexOf(s, '.') == p
  {
  }
}
