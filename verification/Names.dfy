/**
 * Database names (is_safe_database_name in RequestHandler.cpp): a name is joined to the
 * databases folder, resolved, made relative to the folder again, and accepted when one
 * component is left. The path that is then opened or removed is resolved anew, by others: it is
 * handed over as a C string, SQLite expands it component by component, and a removal is up to
 * the operating system.
 */
module Names {
  import opened Wrappers
  import opened Characters

  /** An absolute path: its components from the root. */
  type Path = seq<string>

  predicate Ordinary(component: string) {
    component != "" && component != "." && component != ".." && '/' !in component
  }

  predicate Resolved(p: Path) {
    forall i :: 0 <= i < |p| ==> Ordinary(p[i])
  }

  predicate Component(component: string) {
    component != "" && '/' !in component
  }

  predicate AllComponents(cs: seq<string>) {
    forall i :: 0 <= i < |cs| ==> Component(cs[i])
  }

  /** The non-empty components of a relative path. */
  function Components(name: string): (cs: seq<string>)
    ensures AllComponents(cs)
  {
    ComponentsAfter("", name)
  }

  function ComponentsAfter(current: string, rest: string): (cs: seq<string>)
    requires '/' !in current
    ensures AllComponents(cs)
    decreases |rest|
  {
    if rest == "" then (if current == "" then [] else [current])
    else if rest[0] == '/' then (if current == "" then [] else [current]) + ComponentsAfter("", rest[1..])
    else ComponentsAfter(current + [rest[0]], rest[1..])
  }

  lemma {:induction false} ComponentsOfPlain(current: string, rest: string)
    requires '/' !in current && '/' !in rest
    ensures ComponentsAfter(current, rest) == if current + rest == "" then [] else [current + rest]
    decreases |rest|
  {
    if rest == "" {
      assert current + rest == current;
    } else {
      ComponentsOfPlain(current + [rest[0]], rest[1..]);
      assert current + [rest[0]] + rest[1..] == current + rest;
    }
  }

  // ----- Lexical resolution, as the code computes it -----

  function Parent(p: Path): Path {
    if p == [] then [] else p[..|p| - 1]
  }

  /** lexically_normal of an absolute path; ".." at the root stays at the root. */
  function Normalize(cs: seq<string>): Path {
    if cs == [] then [] else
    var parent, c := Normalize(cs[..|cs| - 1]), cs[|cs| - 1];
    if c == "." then parent else if c == ".." then Parent(parent) else parent + [c]
  }

  function CommonPrefix(a: Path, b: Path): (n: nat)
    ensures n <= |a| && n <= |b|
    ensures a[..n] == b[..n]
    ensures n < |a| && n < |b| ==> a[n] != b[n]
  {
    if a == [] || b == [] || a[0] != b[0] then 0
    else 1 + CommonPrefix(a[1..], b[1..])
  }

  function Ups(n: nat): (ups: seq<string>)
    ensures |ups| == n && forall i :: 0 <= i < n ==> ups[i] == ".."
  {
    seq(n, _ => "..")
  }

  /** path.lexically_relative(base) */
  function Relative(path: Path, base: Path): seq<string> {
    var n := CommonPrefix(path, base);
    if n == |path| && n == |base| then ["."] else Ups(|base| - n) + path[n..]
  }

  /** The last four conditions of is_safe_database_name. */
  predicate SingleRelative(rel: seq<string>) {
    rel != [] && rel != ["."] && rel[0] != ".." && |rel| == 1
  }

  predicate IsRelative(name: string) {
    name != "" && name[0] != '/'
  }

  /**
   * A final separator or "." names a directory. Where the path exists it is resolved away; where
   * it does not, it is kept, and the relative path has a parent path.
   */
  predicate Trailing(name: string) {
    var cs := Components(name);
    name != "" && (name[|name| - 1] == '/' || (cs != [] && cs[|cs| - 1] == "."))
  }

  /** The one component by which folder and name together extend the folder. */
  function LexicalChild(base: Path, name: string): (child: Option<string>) {
    var rel := Relative(Normalize(base + Components(name)), base);
    if SingleRelative(rel) then Some(rel[0]) else None
  }

  /** The check where nothing exists that the name could lead through. */
  predicate IsSafeName(base: Path, name: string) {
    IsRelative(name) && !Trailing(name) && LexicalChild(base, name).Some?
  }

  lemma {:induction false} NormalizeResolves(cs: seq<string>)
    requires AllComponents(cs)
    ensures Resolved(Normalize(cs))
  {
    if cs != [] {
      NormalizeResolves(cs[..|cs| - 1]);
    }
  }

  lemma {:induction false} NormalizeIsIdentityOnResolved(p: Path)
    requires Resolved(p)
    ensures Normalize(p) == p
  {
    if p != [] {
      NormalizeIsIdentityOnResolved(p[..|p| - 1]);
    }
  }

  lemma RelativeToBase(path: Path, base: Path)
    requires Resolved(path)
    ensures SingleRelative(Relative(path, base)) <==> |path| == |base| + 1 && path[..|base|] == base
  {
    var n := CommonPrefix(path, base);
    var rel := Relative(path, base);
    if n == |base| {
      if |path| == n + 1 {
        assert rel == [path[n]];
        assert Ordinary(path[n]);
      }
    } else {
      assert rel[0] == "..";
      if |path| > |base| {
        assert path[..|base|][n] != base[n];
      }
    }
  }

  /**
   * A relative name without a final separator or "." is accepted exactly when folder and name
   * together resolve to the folder extended by one ordinary component, whatever detours through
   * "." and ".." the name takes.
   */
  lemma SafeNamesAreDirectChildren(base: Path, name: string)
    requires Resolved(base)
    ensures IsSafeName(base, name) <==>
            IsRelative(name) && !Trailing(name)
            && exists c :: Ordinary(c) && Normalize(base + Components(name)) == base + [c]
  {
    var full := Normalize(base + Components(name));
    NormalizeResolves(base + Components(name));
    RelativeToBase(full, base);
    if |full| == |base| + 1 && full[..|base|] == base {
      assert full == base + [full[|base|]];
    }
  }

  /** No empty and no absolute name is accepted, in any folder and whatever the file system holds. */
  lemma AbsoluteNamesAreRefused(fs: FileSystem, base: Path, rest: string)
    ensures Child(base, "/" + rest) == None && Child(base, "") == None
    ensures !IsSafeNameIn(fs, base, "/" + rest) && !IsSafeNameIn(fs, base, "")
  {
  }

  /** The last component of a name that goes on behind a separator. */
  lemma {:induction false} LastComponent(current: string, front: string, c: string)
    requires '/' !in current && c != "" && '/' !in c
    ensures var cs := ComponentsAfter(current, front + "/" + c); cs != [] && cs[|cs| - 1] == c
    decreases |front|
  {
    var s := front + "/" + c;
    if front == "" {
      assert s[1..] == c;
      ComponentsOfPlain("", c);
      assert "" + c == c;
    } else {
      assert s[1..] == front[1..] + "/" + c;
      if front[0] == '/' {
        LastComponent("", front[1..], c);
      } else {
        LastComponent(current + [front[0]], front[1..], c);
      }
    }
  }

  /** The names that end in a separator or in the component ".". */
  lemma TrailingNames(name: string)
    ensures Trailing(name) <==> name == "." || EndsIn(name, "/") || EndsIn(name, "/.")
  {
    hide ComponentsAfter, EndsIn;
    EndsInSeparator(name);
    if '/' !in name {
      ComponentsWithoutSeparator(name);
    } else if name[|name| - 1] != '/' {
      var front, c := LastSeparator(name);
      LastComponent("", front, c);
      assert name[|name| - 1] == c[|c| - 1];
      assert |c| > 1 ==> c[|c| - 2] == name[|name| - 2];
      assert |c| == 1 ==> c == [name[|name| - 1]] && name[|name| - 2] == '/';
    }
  }

  lemma EndsInSeparator(name: string)
    ensures EndsIn(name, "/") <==> name != "" && name[|name| - 1] == '/'
    ensures EndsIn(name, "/.") <==> |name| >= 2 && name[|name| - 2] == '/' && name[|name| - 1] == '.'
  {
    if |name| >= 1 {
      assert name[|name| - 1..] == [name[|name| - 1]];
    }
    if |name| >= 2 {
      assert name[|name| - 2..] == [name[|name| - 2], name[|name| - 1]];
    }
  }

  predicate EndsIn(s: string, suffix: string) {
    |s| >= |suffix| && s[|s| - |suffix|..] == suffix
  }

  lemma ComponentsWithoutSeparator(name: string)
    requires '/' !in name
    ensures Components(name) == if name == "" then [] else [name]
  {
    ComponentsOfPlain("", name);
    assert "" + name == name;
  }

  lemma {:induction false} LastSeparator(name: string) returns (front: string, c: string)
    requires '/' in name
    ensures name == front + "/" + c && '/' !in c
    decreases |name|
  {
    var last := name[|name| - 1];
    if last == '/' {
      front, c := name[..|name| - 1], "";
    } else {
      assert name == name[..|name| - 1] + [last];
      front, c := LastSeparator(name[..|name| - 1]);
      c := c + [last];
    }
  }

  /** The file an accepted name denotes. */
  function Child(base: Path, name: string): (child: Option<string>)
    ensures child.Some? <==> IsSafeName(base, name)
  {
    if IsSafeName(base, name) then LexicalChild(base, name) else None
  }

  lemma OnlyRelative(path: Path, base: Path)
    requires |path| == |base| + 1 && path[..|base|] == base
    ensures Relative(path, base) == [path[|base|]]
  {
  }

  lemma ChildIsTheExtension(base: Path, name: string)
    requires Resolved(base) && IsSafeName(base, name)
    ensures Normalize(base + Components(name)) == base + [Child(base, name).value]
    ensures Ordinary(Child(base, name).value)
  {
    hide Trailing;
    LexicalChildExtends(base, name);
  }

  lemma LexicalChildExtends(base: Path, name: string)
    requires Resolved(base) && LexicalChild(base, name).Some?
    ensures Normalize(base + Components(name)) == base + [LexicalChild(base, name).value]
    ensures Ordinary(LexicalChild(base, name).value)
  {
    hide Normalize, Components;
    var full := Normalize(base + Components(name));
    NormalizeResolves(base + Components(name));
    RelativeToBase(full, base);
    OnlyRelative(full, base);
    hide Relative;
    assert full == base + [full[|base|]];
  }

  lemma SnocInjective<T>(s: seq<T>, a: T, b: T)
    requires s + [a] == s + [b]
    ensures a == b
  {
    assert (s + [a])[|s|] == a && (s + [b])[|s|] == b;
  }

  lemma LexicalChildIs(base: Path, name: string, c: string)
    requires Resolved(base) && Ordinary(c) && Normalize(base + Components(name)) == base + [c]
    ensures LexicalChild(base, name) == Some(c)
  {
    hide Normalize, Components;
    RelativeToBase(base + [c], base);
    assert (base + [c])[..|base|] == base;
    LexicalChildExtends(base, name);
    SnocInjective(base, c, LexicalChild(base, name).value);
  }

  lemma ChildIs(base: Path, name: string, c: string)
    requires Resolved(base) && Ordinary(c) && Normalize(base + Components(name)) == base + [c]
    requires IsRelative(name) && !Trailing(name)
    ensures Child(base, name) == Some(c)
  {
    hide Trailing;
    LexicalChildIs(base, name, c);
  }

  /** A name that ends in an ordinary component does not trail. */
  lemma EndsInOrdinary(front: string, c: string)
    requires Ordinary(c) && Components(front + c) != []
    requires var cs := Components(front + c); cs[|cs| - 1] == c
    ensures !Trailing(front + c)
  {
    hide Components;
    assert (front + c)[|front + c| - 1] == c[|c| - 1];
  }

  lemma PlainNamesDoNotTrail(name: string)
    requires Ordinary(name)
    ensures IsRelative(name) && !Trailing(name)
  {
    ComponentsOfOrdinary(name);
    assert "" + name == name;
    EndsInOrdinary("", name);
  }

  /** A plain component is accepted and denotes itself, in every folder. */
  lemma PlainNamesDenoteThemselves(base: Path, name: string)
    requires Resolved(base) && Ordinary(name)
    ensures Child(base, name) == Some(name)
  {
    ComponentsOfOrdinary(name);
    PlainNamesDoNotTrail(name);
    NormalizeIsIdentityOnResolved(base);
    NormalizeSnoc(base, name);
    hide Normalize, Components;
    ChildIs(base, name, name);
  }

  lemma ComponentsOfDotted(name: string)
    requires Ordinary(name)
    ensures Components("./" + name) == [".", name]
  {
    var s := "./" + name;
    assert s[1..] == "/" + name;
    assert ("/" + name)[1..] == name;
    ComponentsOfPlain("", name);
    assert "" + name == name;
    assert ComponentsAfter(".", "/" + name) == ["."] + ComponentsAfter("", name);
    assert "" + [s[0]] == ".";
    assert ComponentsAfter("", s) == ComponentsAfter(".", "/" + name);
  }

  /** Different spellings denote one file: "./a" is the file "a". */
  lemma DottedNamesAreAliases(base: Path, name: string)
    requires Resolved(base) && Ordinary(name)
    ensures Child(base, "./" + name) == Some(name)
  {
    hide Normalize, Components, Trailing;
    ComponentsOfDotted(name);
    NormalizeIsIdentityOnResolved(base);
    NormalizeSnoc(base, ".");
    NormalizeSnoc(base + ["."], name);
    EndsInOrdinary("./", name);
    assert base + ["."] + [name] == base + [".", name];
    ChildIs(base, "./" + name, name);
  }

  // ----- The path ends at a NUL -----

  /** The path folder/name as it is handed to sqlite3_open and to remove, in a folder without links. */
  function OpenedLexically(base: Path, name: string): Path {
    Normalize(base + Components(CString(name)))
  }

  predicate IsChildOf(base: Path, p: Path) {
    |p| == |base| + 1 && p[..|base|] == base
  }

  /**
   * The file opened or removed is the one that was checked exactly when the name up to its
   * first NUL leads to the same child of the folder; a name without NUL always does.
   */
  lemma OpensTheCheckedChild(base: Path, name: string)
    requires Resolved(base) && IsSafeName(base, name)
    ensures OpenedLexically(base, name) == base + [Child(base, name).value]
            <==> LexicalChild(base, CString(name)) == Child(base, name)
    ensures '\0' !in name ==> LexicalChild(base, CString(name)) == Child(base, name)
  {
    var cut, child := CString(name), Child(base, name).value;
    CStringIsPrefix(name);
    ChildIsTheExtension(base, name);
    hide Normalize, Components, LexicalChild, IsSafeName;
    if LexicalChild(base, cut) == Some(child) {
      LexicalChildExtends(base, cut);
    }
    if OpenedLexically(base, name) == base + [child] {
      LexicalChildIs(base, cut, child);
    }
    LexicalChildIs(base, name, child);
  }

  /** A plain component is the file that is opened exactly when it holds no NUL. */
  lemma PlainNamesOpenThemselves(base: Path, name: string)
    requires Resolved(base) && Ordinary(name)
    ensures OpenedLexically(base, name) == base + [name] <==> '\0' !in name
  {
    PlainNamesDenoteThemselves(base, name);
    OpensTheCheckedChild(base, name);
    CStringIsPrefix(name);
    hide OpenedLexically, CString;
    if '\0' in name {
      ShorterNameDiffers(base, CString(name), name);
    }
  }

  lemma ShorterNameDiffers(base: Path, cut: string, name: string)
    requires Resolved(base) && Ordinary(name) && cut < name
    ensures LexicalChild(base, cut) != Some(name)
  {
    ComponentsOfPlain("", cut);
    assert "" + cut == cut;
    NormalizeIsIdentityOnResolved(base);
    NormalizeSnoc(base, cut);
    assert base + [] == base && |base + [name]| == |base| + 1;
    hide Normalize, Components;
    if LexicalChild(base, cut) == Some(name) {
      LexicalChildExtends(base, cut);
      if cut != "" && cut != "." && cut != ".." {
        SnocInjective(base, cut, name);
      }
    }
  }

  /** This name is accepted as the file y of the folder, and handed over as "../x". */
  function NulName(dir: string, x: string, y: string): string {
    ".." + ['/'] + (x + ['\0'] + ['/'] + (".." + ['/'] + (dir + ['/'] + y)))
  }

  lemma NulNameIsCut(parent: Path, dir: string, x: string, y: string)
    requires Resolved(parent) && Ordinary(dir) && Ordinary(x) && Ordinary(y) && '\0' !in x
    ensures Child(parent + [dir], NulName(dir, x, y)) == Some(y)
    ensures OpenedLexically(parent + [dir], NulName(dir, x, y)) == parent + [x]
  {
    var base, name := parent + [dir], NulName(dir, x, y);
    NulNameComponents(dir, x, y);
    NulNameDoesNotTrail(dir, x, y);
    NormalizeIsIdentityOnResolved(base);
    NormalizeIsIdentityOnResolved(parent);
    NormalizeSnoc(parent, x);
    hide Normalize, Components, CString, NulName, Trailing, IsRelative;
    NormalizeDetour(base, [x + ['\0'], "..", dir, y], parent);
    NormalizeSteps(parent, x + ['\0'], dir, y);
    NormalizeDetour(base, [x], parent);
    assert [".."] + [x] == ["..", x];
    assert [".."] + [x + ['\0'], "..", dir, y] == ["..", x + ['\0'], "..", dir, y];
    ChildIs(base, name, y);
  }

  lemma NulNameDoesNotTrail(dir: string, x: string, y: string)
    requires Ordinary(y) && Components(NulName(dir, x, y)) == ["..", x + ['\0'], "..", dir, y]
    ensures IsRelative(NulName(dir, x, y)) && !Trailing(NulName(dir, x, y))
  {
    hide Components;
    var front := ".." + ['/'] + (x + ['\0'] + ['/'] + (".." + ['/'] + (dir + ['/'])));
    assert front + y == NulName(dir, x, y);
    EndsInOrdinary(front, y);
  }

  lemma NulNameComponents(dir: string, x: string, y: string)
    requires Ordinary(dir) && Ordinary(x) && Ordinary(y) && '\0' !in x
    ensures Components(NulName(dir, x, y)) == ["..", x + ['\0'], "..", dir, y]
    ensures Components(CString(NulName(dir, x, y))) == ["..", x]
  {
    hide ComponentsAfter, CString;
    var tail1 := dir + ['/'] + y;
    var tail2 := ".." + ['/'] + tail1;
    ComponentsThen("..", x + ['\0'] + ['/'] + tail2);
    ComponentsThen(x + ['\0'], tail2);
    ComponentsThen("..", tail1);
    ComponentsThen(dir, y);
    ComponentsOfOrdinary(y);
    ComponentsThen("..", x);
    ComponentsOfOrdinary(x);
    NulNameIsCutAt(dir, x, y);
    hide Components;
    assert [".."] + ([x + ['\0']] + ([".."] + ([dir] + [y]))) == ["..", x + ['\0'], "..", dir, y];
    assert [".."] + [x] == ["..", x];
  }

  lemma ComponentsOfOrdinary(name: string)
    requires Ordinary(name)
    ensures Components(name) == [name]
  {
    ComponentsOfPlain("", name);
    assert "" + name == name;
  }

  lemma NulNameIsCutAt(dir: string, x: string, y: string)
    requires '\0' !in x
    ensures CString(NulName(dir, x, y)) == ".." + ['/'] + x
  {
    var cut, rest := ".." + ['/'] + x, ['/'] + (".." + ['/'] + (dir + ['/'] + y));
    CStringBefore(cut, rest);
    assert cut + ['\0'] + rest == NulName(dir, x, y);
  }

  /** One step up and then on. */
  lemma NormalizeDetour(base: Path, cs: seq<string>, parent: Path)
    requires base != [] && Normalize(base) == base && Parent(base) == parent && Normalize(parent) == parent
    ensures Normalize(base + ([".."] + cs)) == Normalize(parent + cs)
  {
    hide Normalize;
    NormalizeSnoc(base, "..");
    NormalizeAppend(base + [".."], cs);
    PathAssociates(base, [".."], cs);
  }

  lemma PathAssociates(a: seq<string>, b: seq<string>, c: seq<string>)
    ensures a + b + c == a + (b + c)
  {
  }

  lemma NormalizeSteps(parent: Path, c: string, dir: string, y: string)
    requires Normalize(parent) == parent && c != "." && c != ".." && Ordinary(dir) && Ordinary(y)
    ensures Normalize(parent + [c, "..", dir, y]) == parent + [dir] + [y]
  {
    NormalizeSnoc(parent, c);
    NormalizeSnoc(parent + [c], "..");
    NormalizeSnoc(parent + [c, ".."], dir);
    NormalizeSnoc(parent + [c, "..", dir], y);
    hide Normalize;
    assert parent + [c] + [".."] == parent + [c, ".."];
    assert parent + [c, ".."] + [dir] == parent + [c, "..", dir];
    assert parent + [c, "..", dir] + [y] == parent + [c, "..", dir, y];
  }

  lemma NormalizeSnoc(cs: seq<string>, c: string)
    ensures Normalize(cs + [c])
            == if c == "." then Normalize(cs) else if c == ".." then Parent(Normalize(cs)) else Normalize(cs) + [c]
  {
    assert (cs + [c])[..|cs|] == cs;
  }

  lemma {:induction false} CStringBefore(a: string, b: string)
    requires '\0' !in a
    ensures CString(a + ['\0'] + b) == a
  {
    if a != "" {
      CStringBefore(a[1..], b);
      assert (a + ['\0'] + b)[1..] == a[1..] + ['\0'] + b;
    }
  }

  /** The first component of a path, and the rest behind its separator. */
  lemma ComponentsThen(first: string, rest: string)
    requires first != "" && '/' !in first
    ensures Components(first + ['/'] + rest) == [first] + Components(rest)
  {
    ComponentsUpTo("", first, rest);
    assert "" + first == first;
  }

  lemma {:induction false} ComponentsUpTo(current: string, first: string, rest: string)
    requires '/' !in current && '/' !in first && current + first != ""
    ensures ComponentsAfter(current, first + ['/'] + rest) == [current + first] + Components(rest)
    decreases |first|
  {
    var s := first + ['/'] + rest;
    if first == "" {
      assert s[1..] == rest && current + first == current;
    } else {
      assert s[1..] == first[1..] + ['/'] + rest;
      ComponentsUpTo(current + [first[0]], first[1..], rest);
      assert current + [first[0]] + first[1..] == current + first;
    }
  }

  // ----- Resolution by the file system, with symbolic links -----

  /** The target of a link is an absolute, resolved path: where the last link of a chain leads. */
  datatype Node = Dir | File | Link(target: Path)

  type FileSystem = map<Path, Node>

  predicate IsLink(fs: FileSystem, p: Path) {
    p in fs && fs[p].Link?
  }

  /** Every node lies in a directory, the root is one, and no link leads on through a link. */
  ghost predicate WellFormed(fs: FileSystem) {
    && [] in fs && fs[[]].Dir?
    && (forall p :: p in fs ==> Resolved(p) && (p != [] ==> p[..|p| - 1] in fs && fs[p[..|p| - 1]].Dir?))
    && (forall p :: p in fs && fs[p].Link? ==> Resolved(fs[p].target))
    && (forall p, k :: p in fs && fs[p].Link? && 0 <= k <= |fs[p].target| ==> !IsLink(fs, fs[p].target[..k]))
  }

  /** Following the node at p; None when nothing is there. */
  function Enter(fs: FileSystem, p: Path): Option<Path> {
    if p !in fs then None
    else if !fs[p].Link? then Some(p)
    else if fs[p].target in fs then Some(fs[p].target)
    else None
  }

  /** The file system's resolution of a path from the root: what `canonical` returns. */
  function Walk(fs: FileSystem, cs: seq<string>): Option<Path> {
    if cs == [] then Some([]) else
    var parent, c := Walk(fs, cs[..|cs| - 1]), cs[|cs| - 1];
    if parent.None? || parent.value !in fs || !fs[parent.value].Dir? then None
    else if c == "." then parent
    else if c == ".." then Some(Parent(parent.value))
    else Enter(fs, parent.value + [c])
  }

  /** The number of leading components that exist. */
  function Existing(fs: FileSystem, cs: seq<string>): (k: nat)
    ensures k <= |cs| && Walk(fs, cs[..k]).Some?
    ensures k < |cs| ==> Walk(fs, cs[..k + 1]).None?
  {
    if cs == [] then 0
    else if Walk(fs, cs).Some? then
      assert cs[..|cs|] == cs;
      |cs|
    else
      var k := Existing(fs, cs[..|cs| - 1]);
      assert cs[..|cs| - 1][..k] == cs[..k];
      assert k + 1 < |cs| ==> cs[..|cs| - 1][..k + 1] == cs[..k + 1];
      assert cs[..|cs|] == cs;
      k
  }

  /** weakly_canonical: the existing part resolved, the rest appended and normalised. */
  function WeaklyCanonical(fs: FileSystem, cs: seq<string>): Path {
    var k := Existing(fs, cs);
    Normalize(Walk(fs, cs[..k]).value + cs[k..])
  }

  predicate IsDirectory(fs: FileSystem, p: Option<Path>) {
    p.Some? && p.value in fs && fs[p.value].Dir?
  }

  predicate IsSafeNameIn(fs: FileSystem, base: Path, name: string) {
    var cs := base + Components(name);
    && IsRelative(name)
    && SingleRelative(Relative(WeaklyCanonical(fs, cs), base))
    && (Trailing(name) ==> IsDirectory(fs, Walk(fs, cs)))
  }

  // What SQLite and the operating system make of the path later.

  function SqliteStep(fs: FileSystem, p: Path, c: string): Path {
    if c == "." then p
    else if c == ".." then Parent(p)
    else if IsLink(fs, p + [c]) then fs[p + [c]].target
    else p + [c]
  }

  /** sqlite3_open's own resolution: element by element, links expanded, ".." undone by name. */
  function SqlitePath(fs: FileSystem, p: Path, cs: seq<string>): Path
    decreases |cs|
  {
    if cs == [] then p else SqlitePath(fs, SqliteStep(fs, p, cs[0]), cs[1..])
  }

  /** The path that a QUERY opens: that file is used or created, or the open fails. */
  function OpenedPath(fs: FileSystem, base: Path, name: string): Path {
    SqlitePath(fs, [], base + Components(CString(name)))
  }

  /**
   * The file that a DELETE_DB removes, if it removes one: the last component, itself not
   * followed. Only a directory has a path with a final separator.
   */
  function RemovedPath(fs: FileSystem, base: Path, name: string): Option<Path> {
    var cs := base + Components(CString(name));
    if Trailing(CString(name)) || cs == [] || cs[|cs| - 1] == "." || cs[|cs| - 1] == ".." then None else
    var parent := Walk(fs, cs[..|cs| - 1]);
    if parent.None? || parent.value !in fs || !fs[parent.value].Dir? then None else
    var entry := parent.value + [cs[|cs| - 1]];
    if entry in fs && !fs[entry].Dir? then Some(entry) else None
  }

  lemma {:induction false} WalkResolves(fs: FileSystem, cs: seq<string>)
    requires WellFormed(fs) && Walk(fs, cs).Some?
    ensures Walk(fs, cs).value in fs && !fs[Walk(fs, cs).value].Link? && Resolved(Walk(fs, cs).value)
  {
    if cs != [] {
      var front, c := cs[..|cs| - 1], cs[|cs| - 1];
      WalkResolves(fs, front);
      var entry := Walk(fs, front).value + [c];
      if c != "." && c != ".." && IsLink(fs, entry) {
        var target := fs[entry].target;
        assert target[..|target|] == target;
      }
    }
  }

  /** Without links the walk, where it succeeds, is the lexical resolution. */
  lemma {:induction false} WalkWithoutLinks(fs: FileSystem, cs: seq<string>)
    requires forall p :: p in fs ==> !fs[p].Link?
    requires Walk(fs, cs).Some?
    ensures Walk(fs, cs).value == Normalize(cs)
  {
    if cs != [] {
      WalkWithoutLinks(fs, cs[..|cs| - 1]);
    }
  }

  lemma {:induction false} NormalizeAppend(a: seq<string>, b: seq<string>)
    ensures Normalize(Normalize(a) + b) == Normalize(a + b)
    decreases |b|
  {
    if b == [] {
      assert a + b == a && Normalize(a) + b == Normalize(a);
      NormalizeIdempotent(a);
    } else {
      var b' := b[..|b| - 1];
      NormalizeAppend(a, b');
      assert (a + b)[..|a + b| - 1] == a + b';
      assert (Normalize(a) + b)[..|Normalize(a) + b| - 1] == Normalize(a) + b';
    }
  }

  lemma {:induction false} NormalizeIdempotent(a: seq<string>)
    ensures Normalize(Normalize(a)) == Normalize(a)
  {
    if a != [] {
      NormalizeIdempotent(a[..|a| - 1]);
      var parent := Normalize(a[..|a| - 1]);
      assert (parent + [a[|a| - 1]])[..|parent|] == parent;
      if parent != [] {
        PrefixOfNormal(parent);
      }
    }
  }

  lemma PrefixOfNormal(p: Path)
    requires p != [] && Normalize(p) == p
    ensures Normalize(p[..|p| - 1]) == p[..|p| - 1]
  {
    var parent, c := Normalize(p[..|p| - 1]), p[|p| - 1];
    NormalizeShrinks(p[..|p| - 1]);
    assert Normalize(p) == parent + [c];
    assert (parent + [c])[..|p| - 1] == parent;
  }

  lemma {:induction false} NormalizeShrinks(cs: seq<string>)
    ensures |Normalize(cs)| <= |cs|
  {
    if cs != [] {
      NormalizeShrinks(cs[..|cs| - 1]);
    }
  }

  /**
   * Without links the check with the file system is the lexical check, for every name that does
   * not trail; one that does is accepted for an existing directory of the folder.
   */
  lemma SafeWithoutLinks(fs: FileSystem, base: Path, name: string)
    requires WellFormed(fs) && forall p :: p in fs ==> !fs[p].Link?
    ensures !Trailing(name) ==> (IsSafeNameIn(fs, base, name) <==> IsSafeName(base, name))
    ensures Trailing(name) ==>
              (IsSafeNameIn(fs, base, name)
               <==> IsRelative(name) && LexicalChild(base, name).Some?
                    && IsDirectory(fs, Walk(fs, base + Components(name))))
  {
    hide Walk, Normalize, Existing, Relative, SingleRelative, Trailing;
    var cs := base + Components(name);
    var k := Existing(fs, cs);
    WalkWithoutLinks(fs, cs[..k]);
    NormalizeAppend(cs[..k], cs[k..]);
    assert cs[..k] + cs[k..] == cs;
  }

  lemma WeaklyCanonicalResolves(fs: FileSystem, cs: seq<string>)
    requires WellFormed(fs) && AllComponents(cs)
    ensures Resolved(WeaklyCanonical(fs, cs))
  {
    var k := Existing(fs, cs);
    WalkResolves(fs, cs[..k]);
    NormalizeResolves(Walk(fs, cs[..k]).value + cs[k..]);
  }

  lemma CanonicalOfExisting(fs: FileSystem, cs: seq<string>)
    requires WellFormed(fs) && Walk(fs, cs).Some?
    ensures WeaklyCanonical(fs, cs) == Walk(fs, cs).value
  {
    var k := Existing(fs, cs);
    WalkIsPrefixClosed(fs, cs, k);
    assert cs[..k] == cs && cs[k..] == [];
    WalkResolves(fs, cs);
    assert Walk(fs, cs).value + [] == Walk(fs, cs).value;
    NormalizeIsIdentityOnResolved(Walk(fs, cs).value);
  }

  lemma {:induction false} WalkIsPrefixClosed(fs: FileSystem, cs: seq<string>, k: nat)
    requires Walk(fs, cs).Some? && k <= |cs|
    requires k < |cs| ==> Walk(fs, cs[..k + 1]).None?
    ensures k == |cs|
  {
    assert cs[..|cs|] == cs;
    if k + 1 < |cs| {
      assert cs[..|cs| - 1][..k + 1] == cs[..k + 1];
      WalkIsPrefixClosed(fs, cs[..|cs| - 1], k);
    }
  }

  lemma {:induction false} SqlitePathSnoc(fs: FileSystem, p: Path, cs: seq<string>, c: string)
    ensures SqlitePath(fs, p, cs + [c]) == SqliteStep(fs, SqlitePath(fs, p, cs), c)
    decreases |cs|
  {
    if cs == [] {
      assert cs + [c] == [c] && [c][1..] == [];
    } else {
      assert (cs + [c])[1..] == cs[1..] + [c];
      SqlitePathSnoc(fs, SqliteStep(fs, p, cs[0]), cs[1..], c);
    }
  }

  lemma {:induction false} SqlitePathAppend(fs: FileSystem, p: Path, a: seq<string>, b: seq<string>)
    ensures SqlitePath(fs, p, a + b) == SqlitePath(fs, SqlitePath(fs, p, a), b)
    decreases |a|
  {
    if a == [] {
      assert a + b == b;
    } else {
      assert (a + b)[1..] == a[1..] + b;
      SqlitePathAppend(fs, SqliteStep(fs, p, a[0]), a[1..], b);
    }
  }

  /** As far as the path exists, SQLite resolves it as the file system does. */
  lemma {:induction false} SqlitePathOfExisting(fs: FileSystem, cs: seq<string>)
    requires Walk(fs, cs).Some?
    ensures SqlitePath(fs, [], cs) == Walk(fs, cs).value
  {
    if cs != [] {
      var front, c := cs[..|cs| - 1], cs[|cs| - 1];
      SqlitePathOfExisting(fs, front);
      SqlitePathSnoc(fs, [], front, c);
      assert cs == front + [c];
    }
  }

  /** The last link that is expanded on the way from p along cs, and the components behind it. */
  datatype Detour = Detour(target: Path, rest: seq<string>)

  function LastLink(fs: FileSystem, p: Path, cs: seq<string>): Option<Detour>
    decreases |cs|
  {
    if cs == [] then None else
    var later := LastLink(fs, SqliteStep(fs, p, cs[0]), cs[1..]);
    if later.Some? then later
    else if cs[0] != "." && cs[0] != ".." && IsLink(fs, p + [cs[0]]) then Some(Detour(fs[p + [cs[0]]].target, cs[1..]))
    else None
  }

  /** Where the path ends when the last link on the way is known. */
  function Landing(p: Path, cs: seq<string>, last: Option<Detour>): Path {
    if last.None? then Normalize(p + cs) else Normalize(last.value.target + last.value.rest)
  }

  lemma {:induction false} LastLinkDecides(fs: FileSystem, p: Path, cs: seq<string>)
    requires WellFormed(fs) && Resolved(p) && AllComponents(cs)
    ensures SqlitePath(fs, p, cs) == Landing(p, cs, LastLink(fs, p, cs))
    decreases |cs|
  {
    if cs == [] {
      NormalizeIsIdentityOnResolved(p);
      assert p + cs == p;
    } else {
      var p' := SqliteStep(fs, p, cs[0]);
      assert Component(cs[0]) && AllComponents(cs[1..]);
      StepResolves(fs, p, cs[0]);
      var later := LastLink(fs, p', cs[1..]);
      if later.None? {
        StepNormalizes(fs, p, cs);
      } else {
        LandsLater(p, p', cs, cs[1..], later);
      }
      LastLinkDecides(fs, p', cs[1..]);
      hide Landing, Normalize, WellFormed, Resolved, Component, AllComponents, SqliteStep;
      assert SqlitePath(fs, p, cs) == SqlitePath(fs, p', cs[1..]);
    }
  }

  lemma LandsLater(p: Path, p': Path, cs: seq<string>, cs': seq<string>, later: Option<Detour>)
    requires later.Some?
    ensures Landing(p, cs, later) == Landing(p', cs', later)
  {
  }

  lemma StepNormalizes(fs: FileSystem, p: Path, cs: seq<string>)
    requires Resolved(p) && cs != [] && LastLink(fs, SqliteStep(fs, p, cs[0]), cs[1..]).None?
    ensures Landing(SqliteStep(fs, p, cs[0]), cs[1..], None) == Landing(p, cs, LastLink(fs, p, cs))
  {
    var c, rest := cs[0], cs[1..];
    FirstLink(fs, p, cs);
    NormalizeFirst(p, c, rest);
    assert p + ([c] + rest) == p + cs by {
      assert [c] + rest == cs;
    }
    hide LastLink, Normalize;
  }

  lemma FirstLink(fs: FileSystem, p: Path, cs: seq<string>)
    requires cs != [] && LastLink(fs, SqliteStep(fs, p, cs[0]), cs[1..]).None?
    ensures LastLink(fs, p, cs) == if cs[0] != "." && cs[0] != ".." && IsLink(fs, p + [cs[0]])
                                   then Some(Detour(fs[p + [cs[0]]].target, cs[1..])) else None
  {
  }

  lemma NormalizeFirst(p: Path, c: string, rest: seq<string>)
    requires Resolved(p)
    ensures Normalize(p + ([c] + rest))
            == Normalize((if c == "." then p else if c == ".." then Parent(p) else p + [c]) + rest)
  {
    hide Normalize;
    NormalizeIsIdentityOnResolved(p);
    NormalizeSnoc(p, c);
    NormalizeAppend(p + [c], rest);
    PathAssociates(p, [c], rest);
  }

  lemma StepResolves(fs: FileSystem, p: Path, c: string)
    requires WellFormed(fs) && Resolved(p) && Component(c)
    ensures Resolved(SqliteStep(fs, p, c))
  {
  }

  /**
   * The check resolves the leading components that exist; the link that SQLite expands last
   * among the others, if there is one.
   */
  function Unchecked(fs: FileSystem, base: Path, name: string): Option<Detour> {
    var cs := base + Components(name);
    var k := Existing(fs, cs);
    LastLink(fs, Walk(fs, cs[..k]).value, cs[k..])
  }

  /**
   * A name without NUL that the check accepts is opened at the checked path, a direct child of
   * the folder, unless SQLite expands a link where the check found nothing any more; then it is
   * opened at a direct child exactly when that link's target and the rest of the name make one.
   */
  lemma OpenedPathIsDirectChild(fs: FileSystem, base: Path, name: string)
    requires WellFormed(fs) && Resolved(base) && IsSafeNameIn(fs, base, name) && '\0' !in name
    ensures var link := Unchecked(fs, base, name);
            && (link.None? ==> OpenedPath(fs, base, name) == WeaklyCanonical(fs, base + Components(name)))
            && (IsChildOf(base, OpenedPath(fs, base, name))
                <==> link.None? || IsChildOf(base, Normalize(link.value.target + link.value.rest)))
  {
    SafeIsChild(fs, base, name);
    CStringIsPrefix(name);
    LandsBehindTheCheck(fs, base + Components(name));
    hide IsSafeNameIn, WeaklyCanonical, Normalize, SqlitePath, Existing, LastLink, Components, WellFormed, Walk;
  }

  lemma SafeIsChild(fs: FileSystem, base: Path, name: string)
    requires WellFormed(fs) && Resolved(base) && IsSafeNameIn(fs, base, name)
    ensures IsChildOf(base, WeaklyCanonical(fs, base + Components(name)))
  {
    var full := WeaklyCanonical(fs, base + Components(name));
    WeaklyCanonicalResolves(fs, base + Components(name));
    hide WeaklyCanonical, Components;
    RelativeToBase(full, base);
  }

  lemma SplitPath(cs: seq<string>, k: nat)
    requires k <= |cs|
    ensures cs[..k] + cs[k..] == cs
  {
  }

  lemma LandsBehindTheCheck(fs: FileSystem, cs: seq<string>)
    requires WellFormed(fs) && AllComponents(cs)
    ensures var k := Existing(fs, cs);
            var link := LastLink(fs, Walk(fs, cs[..k]).value, cs[k..]);
            SqlitePath(fs, [], cs)
            == if link.None? then WeaklyCanonical(fs, cs) else Normalize(link.value.target + link.value.rest)
  {
    var k := Existing(fs, cs);
    var p := Walk(fs, cs[..k]).value;
    WalkResolves(fs, cs[..k]);
    SqlitePathOfExisting(fs, cs[..k]);
    hide Normalize, SqlitePath, LastLink, WellFormed, Walk;
    SplitPath(cs, k);
    SqlitePathAppend(fs, [], cs[..k], cs[k..]);
    LastLinkDecides(fs, p, cs[k..]);
  }

  /** A file that exists is opened where it was checked, through any links. */
  lemma ExistingFileIsDirectChild(fs: FileSystem, base: Path, name: string)
    requires WellFormed(fs) && Resolved(base) && IsSafeNameIn(fs, base, name) && '\0' !in name
    requires Walk(fs, base + Components(name)).Some?
    ensures IsChildOf(base, OpenedPath(fs, base, name))
  {
    SafeIsChild(fs, base, name);
    CStringIsPrefix(name);
    CanonicalOfExisting(fs, base + Components(name));
    SqlitePathOfExisting(fs, base + Components(name));
    hide IsSafeNameIn, WeaklyCanonical, SqlitePath, Components, WellFormed, Walk;
  }

  /** A name without links in it is opened by a single step from the folder. */
  lemma OpenedFromFolder(fs: FileSystem, base: Path, name: string)
    requires Walk(fs, base) == Some(base) && Ordinary(name) && '\0' !in name
    ensures Components(name) == [name]
    ensures OpenedPath(fs, base, name) == if IsLink(fs, base + [name]) then fs[base + [name]].target else base + [name]
  {
    ComponentsOfPlain("", name);
    assert "" + name == name;
    CStringIsPrefix(name);
    SqlitePathOfExisting(fs, base);
    SqlitePathSnoc(fs, [], base, name);
  }

  /**
   * For a plain name the failing case is a link in the folder whose target is missing: the check
   * accepts it as a file that does not exist yet, and SQLite creates the target.
   */
  lemma PlainNameOpened(fs: FileSystem, base: Path, name: string)
    requires WellFormed(fs) && Walk(fs, base) == Some(base) && fs[base].Dir? && Resolved(base)
    requires Ordinary(name) && '\0' !in name && IsSafeNameIn(fs, base, name)
    ensures IsChildOf(base, OpenedPath(fs, base, name))
            <==> (IsLink(fs, base + [name]) && fs[base + [name]].target !in fs
                  ==> IsChildOf(base, fs[base + [name]].target))
  {
    OpenedFromFolder(fs, base, name);
    if Walk(fs, base + [name]).Some? {
      ExistingFileIsDirectChild(fs, base, name);
    }
    assert (base + [name])[..|base|] == base;
    hide IsSafeNameIn, OpenedPath, WellFormed, Components;
  }

  /** Such a name is accepted whatever the link's missing target is. */
  lemma DanglingLinkIsFollowed(base: Path, name: string, target: Path, fs: FileSystem)
    requires WellFormed(fs) && base in fs && fs[base].Dir? && Ordinary(name) && '\0' !in name
    requires base + [name] in fs && fs[base + [name]] == Link(target) && target !in fs
    requires Walk(fs, base) == Some(base)
    ensures IsSafeNameIn(fs, base, name)
    ensures OpenedPath(fs, base, name) == target
  {
    OpenedFromFolder(fs, base, name);
    var cs := base + [name];
    ExistingUpTo(fs, base, name);
    assert Resolved(base + [name]);
    NormalizeIsIdentityOnResolved(base + [name]);
    PlainNamesDoNotTrail(name);
    hide Normalize, WellFormed, Components, OpenedPath;
    RelativeToBase(base + [name], base);
    assert (base + [name])[..|base|] == base;
  }

  lemma ExistingUpTo(fs: FileSystem, base: Path, c: string)
    requires Walk(fs, base) == Some(base) && Walk(fs, base + [c]).None?
    ensures Existing(fs, base + [c]) == |base|
    ensures Walk(fs, (base + [c])[..|base|]) == Some(base) && (base + [c])[|base|..] == [c]
  {
    var cs := base + [c];
    var k := Existing(fs, cs);
    assert cs[..|base|] == base && cs[..|cs|] == cs;
    hide Walk;
    if k < |base| {
      assert cs[..k + 1] == base[..k + 1] && cs[..k] == base[..k];
      WalkIsPrefixClosed(fs, base, k);
    }
  }

  /**
   * A component that does not exist ends the check: a link behind it is not looked at, though
   * SQLite, which undoes the missing component by name, expands it.
   */
  lemma LinkBehindMissingIsFollowed(fs: FileSystem, base: Path, missing: string, name: string)
    requires WellFormed(fs) && base in fs && fs[base].Dir? && Walk(fs, base) == Some(base) && Resolved(base)
    requires Ordinary(missing) && Ordinary(name) && '\0' !in missing && '\0' !in name
    requires base + [missing] !in fs && IsLink(fs, base + [name])
    ensures IsSafeNameIn(fs, base, Detouring(missing, name))
    ensures OpenedPath(fs, base, Detouring(missing, name)) == fs[base + [name]].target
  {
    var detour, rest := Detouring(missing, name), [missing, "..", name];
    DetouringComponents(missing, name);
    MissingEndsTheCheck(fs, base, rest);
    NormalizeIsIdentityOnResolved(base);
    NormalizeBack(base, missing, name);
    RelativeToBase(base + [name], base);
    assert (base + [name])[..|base|] == base;
    hide Detouring, Components, Normalize, Walk, WellFormed, WeaklyCanonical, SqlitePath;
    hide Relative, SingleRelative, CString, Trailing;
    SqlitePathOfExisting(fs, base);
    SqlitePathAppend(fs, [], base, rest);
    SqliteBack(fs, base, missing, name);
  }

  function Detouring(missing: string, name: string): string {
    missing + ['/'] + (".." + ['/'] + name)
  }

  lemma DetouringComponents(missing: string, name: string)
    requires Ordinary(missing) && Ordinary(name) && '\0' !in missing && '\0' !in name
    ensures Components(Detouring(missing, name)) == [missing, "..", name]
    ensures CString(Detouring(missing, name)) == Detouring(missing, name)
    ensures IsRelative(Detouring(missing, name)) && !Trailing(Detouring(missing, name))
  {
    hide Components, CString, Trailing;
    CStringIsPrefix(Detouring(missing, name));
    ComponentsThen(missing, ".." + ['/'] + name);
    ComponentsThen("..", name);
    ComponentsOfOrdinary(name);
    assert [missing] + ([".."] + [name]) == [missing, "..", name];
    PrefixAndLast(missing, "..", name);
    EndsInOrdinary(missing + ['/'] + (".." + ['/']), name);
  }

  lemma PrefixAndLast(a: string, b: string, c: string)
    ensures a + ['/'] + (b + ['/']) + c == a + ['/'] + (b + ['/'] + c)
  {
  }

  lemma NormalizeBack(base: Path, missing: string, name: string)
    requires Normalize(base) == base && Ordinary(missing) && Ordinary(name)
    ensures Normalize(base + [missing, "..", name]) == base + [name]
  {
    NormalizeSnoc(base, missing);
    NormalizeSnoc(base + [missing], "..");
    NormalizeSnoc(base + [missing, ".."], name);
    hide Normalize;
    assert base + [missing] + [".."] == base + [missing, ".."];
    assert base + [missing, ".."] + [name] == base + [missing, "..", name];
    assert Parent(base + [missing]) == base;
  }

  lemma SqliteBack(fs: FileSystem, base: Path, missing: string, name: string)
    requires Ordinary(missing) && Ordinary(name) && base + [missing] !in fs && IsLink(fs, base + [name])
    ensures SqlitePath(fs, base, [missing, "..", name]) == fs[base + [name]].target
  {
    var rest := [missing, "..", name];
    assert rest[1..] == ["..", name] && ["..", name][1..] == [name] && [name][1..] == [];
    assert Parent(base + [missing]) == base;
    assert SqlitePath(fs, base, rest) == SqlitePath(fs, base + [missing], ["..", name]);
    assert SqlitePath(fs, base + [missing], ["..", name]) == SqlitePath(fs, base, [name]);
  }

  lemma TakeOfAppend(a: seq<string>, b: seq<string>, k: nat)
    requires k <= |a|
    ensures (a + b)[..k] == a[..k] && (a + b)[|a|..] == b
  {
  }

  /** The check resolves the folder and stops at the missing component. */
  lemma ExistingBeforeMissing(fs: FileSystem, base: Path, rest: seq<string>)
    requires Walk(fs, base) == Some(base) && rest != [] && Walk(fs, base + [rest[0]]).None?
    ensures Existing(fs, base + rest) == |base|
  {
    hide Walk;
    var cs := base + rest;
    var k := Existing(fs, cs);
    assert base[..|base|] == base;
    if k < |base| {
      TakeOfAppend(base, rest, k + 1);
      TakeOfAppend(base, rest, k);
      WalkIsPrefixClosed(fs, base, k);
    } else if k > |base| {
      assert cs[..k][..|base| + 1] == base + [rest[0]];
      WalkStops(fs, cs[..k], |base| + 1);
    }
  }

  lemma MissingEndsTheCheck(fs: FileSystem, base: Path, rest: seq<string>)
    requires Walk(fs, base) == Some(base) && rest != [] && Ordinary(rest[0]) && base + [rest[0]] !in fs
    ensures WeaklyCanonical(fs, base + rest) == Normalize(base + rest)
  {
    assert (base + [rest[0]])[..|base|] == base;
    assert Walk(fs, base + [rest[0]]).None?;
    hide Walk, Normalize, Existing;
    ExistingBeforeMissing(fs, base, rest);
    TakeOfAppend(base, rest, |base|);
    assert base[..|base|] == base;
  }

  lemma {:induction false} WalkStops(fs: FileSystem, cs: seq<string>, k: nat)
    requires Walk(fs, cs).Some? && k <= |cs|
    ensures Walk(fs, cs[..k]).Some?
  {
    assert cs[..|cs|] == cs;
    if k < |cs| {
      assert cs[..|cs| - 1][..k] == cs[..k];
      WalkStops(fs, cs[..|cs| - 1], k);
    }
  }

  // ----- Removal -----

  /**
   * An accepted name without NUL removes a direct child of the folder, unless it removes a link
   * to something that exists; then it does so exactly when the components before the last one
   * lead to the folder.
   */
  lemma RemovedPathIsDirectChild(fs: FileSystem, base: Path, name: string)
    requires WellFormed(fs) && Resolved(base) && IsSafeNameIn(fs, base, name) && '\0' !in name
    requires RemovedPath(fs, base, name).Some?
    ensures var removed := RemovedPath(fs, base, name).value;
            var cs := base + Components(name);
            cs != [] &&
            (IsChildOf(base, removed)
             <==> (IsLink(fs, removed) && fs[removed].target in fs ==> Walk(fs, cs[..|cs| - 1]) == Some(base)))
  {
    var cs := base + Components(name);
    RemovedIsTheEntry(fs, base, name);
    var removed := RemovedPath(fs, base, name).value;
    SafeIsChild(fs, base, name);
    hide IsSafeNameIn, RemovedPath, Components, Walk, WellFormed, WeaklyCanonical;
    if IsLink(fs, removed) && fs[removed].target in fs {
      SnocIsChild(base, Walk(fs, cs[..|cs| - 1]).value, cs[|cs| - 1]);
    } else {
      CheckedIsTheEntry(fs, cs);
    }
  }

  lemma RemovedIsTheEntry(fs: FileSystem, base: Path, name: string)
    requires '\0' !in name && RemovedPath(fs, base, name).Some?
    ensures var cs := base + Components(name);
            && AllComponents(Components(name)) && cs != [] && cs[|cs| - 1] != "." && cs[|cs| - 1] != ".."
            && var parent := Walk(fs, cs[..|cs| - 1]);
            && IsDirectory(fs, parent)
            && RemovedPath(fs, base, name) == Some(parent.value + [cs[|cs| - 1]])
            && parent.value + [cs[|cs| - 1]] in fs
  {
    CStringIsPrefix(name);
    hide Trailing, Walk, Components;
  }

  lemma SnocIsChild(base: Path, parent: Path, c: string)
    ensures IsChildOf(base, parent + [c]) <==> parent == base
  {
    if |parent| == |base| {
      assert (parent + [c])[..|base|] == parent;
    }
  }

  /** An entry that is no link to something existing is the path that was checked. */
  lemma CheckedIsTheEntry(fs: FileSystem, cs: seq<string>)
    requires WellFormed(fs) && cs != [] && cs[|cs| - 1] != "." && cs[|cs| - 1] != ".."
    requires IsDirectory(fs, Walk(fs, cs[..|cs| - 1]))
    requires var entry := Walk(fs, cs[..|cs| - 1]).value + [cs[|cs| - 1]];
             entry in fs && !(IsLink(fs, entry) && fs[entry].target in fs)
    ensures WeaklyCanonical(fs, cs) == Walk(fs, cs[..|cs| - 1]).value + [cs[|cs| - 1]]
  {
    var entry := Walk(fs, cs[..|cs| - 1]).value + [cs[|cs| - 1]];
    if Walk(fs, cs).Some? {
      CanonicalOfExisting(fs, cs);
    } else {
      ExistingFront(fs, cs);
      NormalizeIsIdentityOnResolved(entry);
      hide Walk, Normalize, Existing;
    }
  }

  lemma ExistingFront(fs: FileSystem, cs: seq<string>)
    requires cs != [] && Walk(fs, cs[..|cs| - 1]).Some? && Walk(fs, cs).None?
    ensures Existing(fs, cs) == |cs| - 1 && cs[|cs| - 1..] == [cs[|cs| - 1]]
  {
  }

  /** A name that leads to the entry l of the folder beside. */
  function Beside(other: string, l: string): string {
    ".." + ['/'] + (other + ['/'] + l)
  }

  lemma BesideComponents(other: string, l: string)
    requires Ordinary(other) && Ordinary(l) && '\0' !in other && '\0' !in l
    ensures Components(Beside(other, l)) == ["..", other, l]
    ensures CString(Beside(other, l)) == Beside(other, l)
    ensures IsRelative(Beside(other, l)) && !Trailing(Beside(other, l))
  {
    hide Components, CString, Trailing;
    CStringIsPrefix(Beside(other, l));
    ComponentsThen("..", other + ['/'] + l);
    ComponentsThen(other, l);
    ComponentsOfOrdinary(l);
    assert [".."] + ([other] + [l]) == ["..", other, l];
    PrefixAndLast("..", other, l);
    EndsInOrdinary(".." + ['/'] + (other + ['/']), l);
  }

  /**
   * A link elsewhere that leads to a file of the folder is accepted as that file, and the link
   * itself is removed, outside the folder.
   */
  lemma LinkElsewhereIsRemoved(fs: FileSystem, parent: Path, dir: string, other: string, l: string, y: string)
    requires WellFormed(fs) && Walk(fs, parent + [dir]) == Some(parent + [dir]) && parent + [dir] + [y] in fs
    requires Ordinary(other) && Ordinary(l) && '\0' !in other && '\0' !in l && other != dir
    requires parent + [other] in fs && fs[parent + [other]].Dir?
    requires parent + [other] + [l] in fs && fs[parent + [other] + [l]] == Link(parent + [dir] + [y])
    ensures IsSafeNameIn(fs, parent + [dir], Beside(other, l))
    ensures RemovedPath(fs, parent + [dir], Beside(other, l)) == Some(parent + [other] + [l])
    ensures !IsChildOf(parent + [dir], parent + [other] + [l])
  {
    var base := parent + [dir];
    var cs := base + ["..", other, l];
    BesideComponents(other, l);
    WalkResolves(fs, base);
    DirectoryOf(fs, base, y);
    WalkBeside(fs, parent, dir, other, l);
    hide Beside, Components, Walk, Trailing, CString;
    CanonicalOfExisting(fs, cs);
    hide WellFormed, WeaklyCanonical, IsDirectory, Ordinary;
    RelativeToBase(base + [y], base);
    SnocIsChild(base, base, y);
    SnocIsChild(base, parent + [other], l);
    hide Relative, SingleRelative;
    if parent + [other] == base {
      SnocInjective(parent, other, dir);
    }
  }

  lemma WalkBeside(fs: FileSystem, parent: Path, dir: string, other: string, l: string)
    requires WellFormed(fs) && Walk(fs, parent + [dir]) == Some(parent + [dir])
    requires parent + [dir] in fs && fs[parent + [dir]].Dir? && Ordinary(other) && Ordinary(l)
    requires parent + [other] in fs && fs[parent + [other]].Dir?
    ensures var cs := parent + [dir] + ["..", other, l];
            && cs[..|cs| - 1] == parent + [dir] + ["..", other] && cs[|cs| - 1] == l
            && Walk(fs, cs[..|cs| - 1]) == Some(parent + [other])
            && Walk(fs, cs) == Enter(fs, parent + [other] + [l])
  {
    var base := parent + [dir];
    DirectoryOf(fs, parent, dir);
    WalkSnoc(fs, base, "..");
    WalkSnoc(fs, base + [".."], other);
    WalkSnoc(fs, base + ["..", other], l);
    hide Walk, WellFormed;
    assert Parent(base) == parent;
    assert base + [".."] + [other] == base + ["..", other];
    assert base + ["..", other] + [l] == base + ["..", other, l];
    assert (base + ["..", other, l])[..|base| + 2] == base + ["..", other];
  }

  lemma DirectoryOf(fs: FileSystem, p: Path, c: string)
    requires WellFormed(fs) && p + [c] in fs
    ensures p in fs && fs[p].Dir? && Resolved(p + [c])
  {
    assert (p + [c])[..|p|] == p;
  }

  lemma WalkSnoc(fs: FileSystem, cs: seq<string>, c: string)
    ensures Walk(fs, cs + [c])
            == if !IsDirectory(fs, Walk(fs, cs)) then None
               else if c == "." then Walk(fs, cs)
               else if c == ".." then Some(Parent(Walk(fs, cs).value))
               else Enter(fs, Walk(fs, cs).value + [c])
  {
    assert (cs + [c])[..|cs|] == cs;
  }

  /** A plain name removes the entry of the folder that bears it, a link or not. */
  lemma PlainNameRemoved(fs: FileSystem, base: Path, name: string)
    requires WellFormed(fs) && Walk(fs, base) == Some(base) && Ordinary(name) && '\0' !in name
    ensures RemovedPath(fs, base, name)
            == if base + [name] in fs && !fs[base + [name]].Dir? then Some(base + [name]) else None
    ensures IsChildOf(base, base + [name])
  {
    ComponentsOfOrdinary(name);
    PlainNamesDoNotTrail(name);
    CStringIsPrefix(name);
    var entry := base + [name];
    assert entry[..|base|] == base && entry[|base|] == name;
    hide Walk, Components, Trailing;
  }

  // ----- The folder without links, as the server uses it -----

  /** The components before the last one lead through existing directories, so the name can be removed. */
  predicate Reaches(directories: set<Path>, base: Path, name: string) {
    var cs := base + Components(name);
    && cs != [] && cs[|cs| - 1] != "." && cs[|cs| - 1] != ".."
    && Walk(map p | p in directories :: Dir, cs[..|cs| - 1]).Some?
  }

  /** Then they lead to the folder itself, and the last one is the child that was checked. */
  lemma ReachedIsTheChild(directories: set<Path>, base: Path, name: string)
    requires Resolved(base) && IsSafeName(base, name) && Reaches(directories, base, name)
    ensures var cs := base + Components(name);
            && Walk(map p | p in directories :: Dir, cs[..|cs| - 1]) == Some(base)
            && cs[|cs| - 1] == Child(base, name).value
  {
    var cs := base + Components(name);
    var front, c := cs[..|cs| - 1], cs[|cs| - 1];
    WalkWithoutLinks(map p | p in directories :: Dir, front);
    ChildIsTheExtension(base, name);
    var full := base + [Child(base, name).value];
    assert Normalize(cs) == Normalize(front) + [c];
    assert full[..|full| - 1] == base && (Normalize(front) + [c])[..|full| - 1] == Normalize(front);
    SnocInjective(base, c, Child(base, name).value);
  }

  /** A plain name is reached exactly when the folder and the directories above it exist. */
  lemma PlainNamesAreReached(directories: set<Path>, base: Path, name: string)
    requires Resolved(base) && Ordinary(name)
    ensures Reaches(directories, base, name) <==> Walk(map p | p in directories :: Dir, base).Some?
  {
    ComponentsOfPlain("", name);
    assert "" + name == name;
    assert (base + [name])[..|base|] == base;
  }
}
