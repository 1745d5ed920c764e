/** Slash-separated archive paths, as `strings.Split`, `filepath.Clean` and `filepath.Base` treat them. */
module Paths {

  /** The components between slashes; never empty. */
  function Split(s: string): (parts: seq<string>)
    ensures parts != []
  {
    if s == "" then [""]
    else if s[0] == '/' then [""] + Split(s[1..])
    else var rest := Split(s[1..]); [[s[0]] + rest[0]] + rest[1..]
  }

  /** The components `filepath.Clean` keeps of a rooted path: no "", no ".", and ".." drops the one before it. */
  function Resolve(parts: seq<string>): seq<string> {
    if parts == [] then [] else
    var init, last := Resolve(parts[..|parts| - 1]), parts[|parts| - 1];
    if last == "" || last == "." then init
    else if last == ".." then (if init == [] then [] else init[..|init| - 1])
    else init + [last]
  }

  function Join(parts: seq<string>): string {
    if parts == [] then "" else if |parts| == 1 then parts[0] else parts[0] + "/" + Join(parts[1..])
  }

  /** `filepath.Clean("/" + path)` without its leading slash. */
  function Clean(path: string): string {
    Join(Resolve(Split(path)))
  }

  /** `filepath.Base`: the last component that is not empty. */
  function Base(path: string): string {
    LastNonEmpty(Split(path))
  }

  function LastNonEmpty(parts: seq<string>): string {
    if parts == [] then "." else
    var last := parts[|parts| - 1];
    if last != "" then last else LastNonEmpty(parts[..|parts| - 1])
  }

  predicate Contains(s: string, part: string) {
    exists i :: 0 <= i <= |s| && part <= s[i..]
  }

  predicate HasSuffix(s: string, suffix: string) {
    |suffix| <= |s| && s[|s| - |suffix|..] == suffix
  }

  lemma {:induction false} SplitAfter(word: string, rest: string)
    requires '/' !in word
    ensures Split(word + "/" + rest) == [word] + Split(rest)
  {
    var s := word + "/" + rest;
    if word == "" {
      assert s[1..] == rest;
    } else {
      SplitAfter(word[1..], rest);
      assert s[1..] == word[1..] + "/" + rest;
      assert [s[0]] + word[1..] == word;
    }
  }

  lemma {:induction false} ResolveAfter(word: string, parts: seq<string>)
    requires word != "" && word != "." && word != ".." && ".." !in parts
    ensures Resolve([word] + parts) == [word] + Resolve(parts)
  {
    if parts == [] {
      assert ([word] + parts)[..0] == [];
    } else {
      var n := |parts| - 1;
      assert ([word] + parts)[..n + 1] == [word] + parts[..n];
      ResolveAfter(word, parts[..n]);
    }
  }

  /** Below a plain first component, cleaning a path without ".." cleans what follows that component. */
  lemma CleanBelow(word: string, rest: string)
    requires '/' !in word && word != "" && word != "." && word != ".." && ".." !in Split(rest)
    requires Clean(rest) != ""
    ensures Clean(word + "/" + rest) == word + "/" + Clean(rest)
  {
    SplitAfter(word, rest);
    ResolveAfter(word, Split(rest));
    var kept := Resolve(Split(rest));
    assert kept != [];
    assert ([word] + kept)[1..] == kept;
  }
}
