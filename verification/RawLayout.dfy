/** The file system probes/z7/rawadmin.py reads: a finite map. A file is named by
    a directory and a relative name, so that two directories never share a file. */
module RawLayout {
  import opened Common
  import opened Text

  type Path = string

  datatype FileSystem = FileSystem(files: map<(Path, string), string>, dirs: set<Path>)

  function Read(fs: FileSystem, dir: Path, name: string): Option<string> {
    var key := if StartsWith(name, "/") then ("", name) else (dir, name);
    if key in fs.files then Some(fs.files[key]) else None
  }

  /** `base / p`: an absolute `p` replaces the base. */
  function JoinPath(base: Path, p: Path): Path {
    if StartsWith(p, "/") then p
    else if base == [] then p
    else if base[|base| - 1] == '/' then base + p
    else base + "/" + p
  }

  /** The component stack of `os.path.normpath` after one more component. */
  function PushComponent(acc: seq<string>, c: string, rooted: bool): seq<string> {
    if c == "" || c == "." then acc
    else if c != ".." || (!rooted && acc == []) || (acc != [] && acc[|acc| - 1] == "..") then acc + [c]
    else if acc != [] then acc[..|acc| - 1]
    else acc
  }

  function NormComponents(parts: seq<string>, acc: seq<string>, rooted: bool): seq<string> {
    if parts == [] then acc else NormComponents(parts[1..], PushComponent(acc, parts[0], rooted), rooted)
  }

  /** What a path starts with: exactly two leading slashes are kept. */
  function Root(p: Path): Path {
    if StartsWith(p, "//") && !StartsWith(p, "///") then "//" else if StartsWith(p, "/") then "/" else ""
  }

  /** `os.path.normpath` on POSIX. */
  function NormPath(p: Path): Path {
    var r := Root(p) + Join('/', NormComponents(Split('/', p), [], Root(p) != ""));
    if r == [] then "." else r
  }
}
