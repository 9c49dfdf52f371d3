/** Archive member names as portable relative paths. */
module ArchivePaths {
  import opened Paths

  /** Unicode's case folding and composition, which are given. */
  datatype Naming = Naming(casefold: string -> string, compose: string -> string)

  datatype Rejection = NoName | AbsolutePath | NoComponents | Parent | Bidirectional | Colon | Trailing | Device

  datatype Judged = Safe(parts: seq<string>) | Unsafe(why: Rejection)

  /** Characters that change the direction in which a name is shown. */
  predicate IsBidi(c: char) {
    c == '\U{061c}' || '\U{200e}' <= c <= '\U{200f}' || '\U{202a}' <= c <= '\U{202e}' || '\U{2066}' <= c <= '\U{2069}'
  }

  predicate IsDevice(s: string) {
    || s in ["con", "prn", "aux", "nul"]
    || (|s| == 4 && s[..3] in ["com", "lpt"] && '1' <= s[3] <= '9')
  }

  /** Up to the first dot. */
  function Stem(part: string): string {
    if part == "" || part[0] == '.' then "" else [part[0]] + Stem(part[1..])
  }

  /** Without the spaces and dots at its end. */
  function Trimmed(part: string): string {
    if part != "" && part[|part| - 1] in [' ', '.'] then Trimmed(part[..|part| - 1]) else part
  }

  function Flaw(n: Naming, part: string): (r: seq<Rejection>)
    ensures |r| <= 1
  {
    if exists i :: 0 <= i < |part| && IsBidi(part[i]) then [Bidirectional]
    else if ':' in part then [Colon]
    else if Trimmed(part) != part then [Trailing]
    else if IsDevice(n.casefold(Stem(part))) then [Device]
    else []
  }

  function Flaws(n: Naming, parts: seq<string>): seq<Rejection> {
    if parts == [] then [] else Flaw(n, parts[0]) + Flaws(n, parts[1..])
  }

  /** The components that name something. */
  function Named(parts: seq<string>): seq<string> {
    if parts == [] then []
    else (if parts[0] == "" || parts[0] == "." then [] else [parts[0]]) + Named(parts[1..])
  }

  /** posixpath.normpath of a relative path, component by component. */
  function Normal(stack: seq<string>, parts: seq<string>): seq<string>
    decreases |parts|
  {
    if parts == [] then stack
    else if parts[0] == "" || parts[0] == "." then Normal(stack, parts[1..])
    else if parts[0] != ".." || stack == [] || stack[|stack| - 1] == ".." then Normal(stack + [parts[0]], parts[1..])
    else Normal(stack[..|stack| - 1], parts[1..])
  }

  /** A drive, a network share or a path from the root. */
  predicate IsAbsolute(portable: string) {
    portable != "" && (portable[0] == '/' || (|portable| >= 2 && portable[1] == ':'))
  }

  function SafePath(n: Naming, raw: string): (r: Judged)
    ensures r.Safe? ==> r.parts != []
  {
    if raw == "" || '\0' in raw then Unsafe(NoName)
    else if IsAbsolute(Portable(raw)) then Unsafe(AbsolutePath)
    else
      var parts := Split(Portable(raw));
      var normal := Normal([], parts);
      if normal == [] then Unsafe(NoComponents)
      else if ".." in Named(parts) || ".." in normal then Unsafe(Parent)
      else
        var flaws := Flaws(n, normal);
        if flaws != [] then Unsafe(flaws[0]) else Safe(normal)
  }

  function Folded(n: Naming, part: string): string {
    n.casefold(n.compose(Trimmed(part)))
  }

  function FoldedAll(n: Naming, parts: seq<string>): (r: seq<string>)
    ensures |r| == |parts| && forall i :: 0 <= i < |parts| ==> r[i] == Folded(n, parts[i])
  {
    seq(|parts|, i requires 0 <= i < |parts| => Folded(n, parts[i]))
  }

  /** What members that would meet on a careless file system have in common. */
  function CollisionKey(n: Naming, parts: seq<string>): (k: seq<string>)
    requires parts != []
    ensures k != []
  {
    Split(Join(FoldedAll(n, parts)))
  }

  // ----- what is accepted -----

  predicate GoodName(n: Naming, part: string) {
    part != "" && part != "." && part != ".." && '/' !in part && Flaw(n, part) == []
  }

  predicate GoodNames(n: Naming, parts: seq<string>) {
    forall i :: 0 <= i < |parts| ==> GoodName(n, parts[i])
  }

  lemma {:induction false} NoFlaws(n: Naming, parts: seq<string>)
    ensures Flaws(n, parts) == [] <==> forall i :: 0 <= i < |parts| ==> Flaw(n, parts[i]) == []
    decreases |parts|
  {
    if parts != [] {
      NoFlaws(n, parts[1..]);
      assert forall i :: 0 <= i < |parts| ==> parts[i] == if i == 0 then parts[0] else parts[1..][i - 1];
    }
  }

  lemma {:induction false} NamedExactly(parts: seq<string>, x: string)
    ensures x in Named(parts) <==> x in parts && x != "" && x != "."
    decreases |parts|
  {
    if parts != [] {
      NamedExactly(parts[1..], x);
      assert parts == [parts[0]] + parts[1..];
    }
  }

  /** Where nothing goes up, normalising only drops what names nothing. */
  lemma {:induction false} NormalIsNamed(stack: seq<string>, parts: seq<string>)
    requires ".." !in Named(parts)
    ensures Normal(stack, parts) == stack + Named(parts)
    decreases |parts|
  {
    if parts != [] {
      var c := parts[0];
      if c == "" || c == "." {
        NormalIsNamed(stack, parts[1..]);
      } else {
        assert Named(parts) == [c] + Named(parts[1..]) && Named(parts)[0] == c;
        NormalIsNamed(stack + [c], parts[1..]);
      }
    }
  }

  lemma NamedAreGood(n: Naming, raw: string)
    requires SafePath(n, raw).Safe?
    ensures SafePath(n, raw).parts == Named(Split(Portable(raw))) && GoodNames(n, SafePath(n, raw).parts)
  {
    Accepted(n, raw);
    var path, parts := Portable(raw), Named(Split(Portable(raw)));
    NormalIsNamed([], Split(path));
    assert [] + parts == parts;
    NoFlaws(n, parts);
    forall i | 0 <= i < |parts| ensures GoodName(n, parts[i]) { GoodOne(n, path, parts[i]); }
  }

  lemma Accepted(n: Naming, raw: string)
    requires SafePath(n, raw).Safe?
    ensures var parts := Split(Portable(raw));
            SafePath(n, raw).parts == Normal([], parts) && ".." !in Named(parts) && Flaws(n, Normal([], parts)) == []
  {}

  lemma GoodOne(n: Naming, path: string, part: string)
    requires part in Named(Split(path)) && ".." !in Named(Split(path)) && Flaw(n, part) == []
    ensures GoodName(n, part)
  {
    NamedExactly(Split(path), part);
  }

  /** A name is accepted exactly when it is relative, names something, never goes up, and every
      component is a portable name; and then it means these components. */
  lemma SafeExactly(n: Naming, raw: string, parts: seq<string>)
    ensures SafePath(n, raw) == Safe(parts) <==>
              && raw != "" && '\0' !in raw && !IsAbsolute(Portable(raw))
              && parts != [] && parts == Named(Split(Portable(raw))) && GoodNames(n, parts)
  {
    if SafePath(n, raw).Safe? { NamedAreGood(n, raw); }
    if parts == Named(Split(Portable(raw))) && GoodNames(n, parts) {
      assert ".." !in parts by { AllNamed(n, parts); }
      NormalIsNamed([], Split(Portable(raw)));
      assert [] + parts == parts;
      NoFlaws(n, parts);
      assert forall i :: 0 <= i < |parts| ==> GoodName(n, parts[i]);
    }
  }

  /** Following the components from any directory leads below it and nowhere else. */
  lemma StaysInside(n: Naming, raw: string, root: seq<string>)
    requires SafePath(n, raw).Safe?
    ensures Normal(root, SafePath(n, raw).parts) == root + SafePath(n, raw).parts && SafePath(n, raw).parts != []
  {
    NamedAreGood(n, raw);
    var parts := SafePath(n, raw).parts;
    AllNamed(n, parts);
    NormalIsNamed(root, parts);
  }

  lemma {:induction false} AllNamed(n: Naming, parts: seq<string>)
    requires GoodNames(n, parts)
    ensures Named(parts) == parts && ".." !in parts
    decreases |parts|
  {
    if parts != [] {
      assert GoodName(n, parts[0]);
      assert GoodNames(n, parts[1..]);
      AllNamed(n, parts[1..]);
      assert parts == [parts[0]] + parts[1..];
    }
  }

  lemma {:induction false} JoinHas(parts: seq<string>, c: char)
    requires parts != [] && c in Join(parts)
    ensures c == '/' || exists i :: 0 <= i < |parts| && c in parts[i]
    decreases |parts|
  {
    if |parts| > 1 && c !in parts[0] && c != '/' {
      JoinHas(parts[1..], c);
      var i :| 0 <= i < |parts[1..]| && c in parts[1..][i];
      assert c in parts[i + 1];
    }
  }

  /** The stored path of an accepted name is accepted as itself. */
  lemma Idempotent(n: Naming, raw: string)
    requires SafePath(n, raw).Safe?
    ensures SafePath(n, Join(SafePath(n, raw).parts)) == SafePath(n, raw)
  {
    NamedAreGood(n, raw);
    var parts := SafePath(n, raw).parts;
    var path := Join(parts);
    OfRaw(raw, parts);
    assert Portable(path) == path;
    SplitJoin(parts);
    AllNamed(n, parts);
    NotAbsolute(n, parts);
    SafeExactly(n, path, parts);
  }

  lemma {:induction false} OfRaw(raw: string, parts: seq<string>)
    requires '\0' !in raw && parts == Named(Split(Portable(raw))) && parts != []
    ensures '\0' !in Join(parts) && '\\' !in Join(parts)
  {
    forall c | c in Join(parts) ensures c == '/' || c in Portable(raw) {
      JoinHas(parts, c);
      if c != '/' {
        var i :| 0 <= i < |parts| && c in parts[i];
        NamedExactly(Split(Portable(raw)), parts[i]);
        InSplit(Portable(raw), parts[i], c);
      }
    }
  }

  lemma {:induction false} InSplit(path: string, part: string, c: char)
    requires part in Split(path) && c in part
    ensures c in path
    decreases |path|
  {
    if path != "" {
      var rest := Split(path[1..]);
      assert path == [path[0]] + path[1..];
      if part in rest {
        InSplit(path[1..], part, c);
      } else if path[0] != '/' && c != path[0] {
        InSplit(path[1..], rest[0], c);
      }
    }
  }

  lemma NotAbsolute(n: Naming, parts: seq<string>)
    requires parts != [] && GoodNames(n, parts)
    ensures Join(parts) != "" && !IsAbsolute(Join(parts))
  {
    assert GoodName(n, parts[0]);
    if |parts[0]| >= 2 { assert Join(parts)[1] == parts[0][1]; }
  }
}
