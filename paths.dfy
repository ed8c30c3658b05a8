/** `get_path` and `get_image_path`: where the data files and figures live, relative to a script. */
module Paths {
  const YELP_PREFIX: string := "yelp_academic_dataset_"

  /** The file-name prefix: the Yelp dataset's own prefix for its files, none for derived files. */
  function FilePrefix(isYelp: bool): string
  {
    if isYelp then YELP_PREFIX else ""
  }

  /** The extension: JSON files, or else parquet files. */
  function FileType(isJson: bool): string
  {
    if isJson then ".json" else ".parquet"
  }

  /** The fixed text before the name. */
  function Lead(directory: string, isYelp: bool): string
  {
    "../" + directory + "/" + FilePrefix(isYelp)
  }

  /** `get_path(name, directory, is_yelp, is_json)`. */
  function GetPath(name: string, directory: string, isYelp: bool, isJson: bool): (p: string)
    ensures |p| == |Lead(directory, isYelp)| + |name| + |FileType(isJson)|
    ensures p[..|Lead(directory, isYelp)|] == Lead(directory, isYelp)
    ensures p[|p| - |FileType(isJson)|..] == FileType(isJson)
  {
    "../" + directory + "/" + FilePrefix(isYelp) + name + FileType(isJson)
  }

  /** The name a path was built from, for known directory and flags: the path without its fixed ends. */
  function NameOf(path: string, directory: string, isYelp: bool, isJson: bool): string
    requires |path| >= |Lead(directory, isYelp)| + |FileType(isJson)|
  {
    path[|Lead(directory, isYelp)|..|path| - |FileType(isJson)|]
  }

  /** Stripping the fixed ends gives back the name. */
  lemma NameOfGetPath(name: string, directory: string, isYelp: bool, isJson: bool)
    ensures NameOf(GetPath(name, directory, isYelp, isJson), directory, isYelp, isJson) == name
  {
    var p := GetPath(name, directory, isYelp, isJson);
    assert p == Lead(directory, isYelp) + name + FileType(isJson);
  }

  /** Different names give different paths. */
  lemma GetPathInjective(n1: string, n2: string, directory: string, isYelp: bool, isJson: bool)
    requires GetPath(n1, directory, isYelp, isJson) == GetPath(n2, directory, isYelp, isJson)
    ensures n1 == n2
  {
    NameOfGetPath(n1, directory, isYelp, isJson);
    NameOfGetPath(n2, directory, isYelp, isJson);
  }

  /** JSON and parquet paths never coincide, whatever the names and directories. */
  lemma JsonAndParquetDiffer(n1: string, d1: string, y1: bool, n2: string, d2: string, y2: bool)
    ensures GetPath(n1, d1, y1, true) != GetPath(n2, d2, y2, false)
  {
    var p, q := GetPath(n1, d1, y1, true), GetPath(n2, d2, y2, false);
    assert p[|p| - 5..] == ".json" && q[|q| - 5..] == "rquet";
    assert p[|p| - 5] == '.' && q[|q| - 5] == 'r';
  }

  /** With its defaults, `get_path('business')` names the Yelp business file in `data`. */
  lemma DefaultBusinessPath()
    ensures GetPath("business", "data", true, true) == "../data/yelp_academic_dataset_business.json"
  {
  }

  /** `get_image_path(name)`. */
  function GetImagePath(name: string): (p: string)
    ensures |p| == |name| + 11
    ensures p[..7] == "../img/" && p[|p| - 4..] == ".png"
    ensures p[7..|p| - 4] == name
  {
    "../img/" + name + ".png"
  }
}
