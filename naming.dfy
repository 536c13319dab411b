/**
 * How the generator names its mirrors: `Mirror` goes into the simple name,
 * the package is moved under the target package, and nested classes go into
 * an `Internal<Outer>Mirror` sub-package of their enclosing class's mirror
 * package (`CodeGenerator.modifySimpleClassName`, `getModifiedPackage`,
 * `operationIncludedPackages` and `determineClassNames`).
 */
module Naming {
  import opened Wrappers
  import opened Strings
  import opened Reflection
  import opened Poet

  /** `operationIncludedPackages()`, in list order. */
  const IncludedPackages: seq<string> :=
    ["co.aikar", "com.destroystokyo.paper", "io.papermc.paper", "org.bukkit", "org.spigotmc", "net.kyori.adventure"]

  /** The target package `main` hands the generator. */
  const TargetPackage: string := "org.mockbukkit.integrationtester"

  // ---------------------------------------------------------------------
  // Simple names
  // ---------------------------------------------------------------------

  /**
   * `modifySimpleClassName`: `Mirror` inserted where the regex `\[.*$`
   * first matches (the first `[`), or appended when there is no `[`.
   */
  function ModifySimpleClassName(simple: string): (r: string)
    ensures exists i | 0 <= i <= |simple| ::
      && r == simple[..i] + "Mirror" + simple[i..]
      && '[' !in simple[..i]
      && (i == |simple| || simple[i] == '[')
  {
    if '[' in simple then
      var i := IndexOf(simple, '[');
      simple[..i] + "Mirror" + simple[i..]
    else
      assert simple[..|simple|] == simple;
      simple + "Mirror"
  }

  /** Where `Mirror` was put: before the first `[`, or at the end. */
  function MirrorAt(simple: string): (i: nat)
    ensures i <= |simple|
    ensures '[' !in simple[..i] && (i == |simple| || simple[i] == '[')
  {
    if '[' in simple then IndexOf(simple, '[') else assert simple[..|simple|] == simple; |simple|
  }

  /** The insertion point is the only one `ModifySimpleClassName` could have used. */
  lemma MirrorAtUnique(simple: string, i: nat)
    requires i <= |simple| && '[' !in simple[..i] && (i == |simple| || simple[i] == '[')
    ensures i == MirrorAt(simple)
  {
  }

  lemma ModifiedAtMirror(simple: string)
    ensures ModifySimpleClassName(simple) == simple[..MirrorAt(simple)] + "Mirror" + simple[MirrorAt(simple)..]
  {
    var r := ModifySimpleClassName(simple);
    var i :| 0 <= i <= |simple| && r == simple[..i] + "Mirror" + simple[i..] && '[' !in simple[..i]
      && (i == |simple| || simple[i] == '[');
    MirrorAtUnique(simple, i);
  }

  /** `Foo[]` becomes `FooMirror[]`; `Player` becomes `PlayerMirror`. */
  lemma MirrorExamples()
    ensures ModifySimpleClassName("Foo[]") == "FooMirror[]"
    ensures ModifySimpleClassName("Player") == "PlayerMirror"
  {
    MirrorAtUnique("Foo[]", 3);
    ModifiedAtMirror("Foo[]");
    MirrorAtUnique("Player", 6);
    ModifiedAtMirror("Player");
  }

  /** A mirror name has a `[` exactly when the original has. */
  lemma MirrorKeepsBrackets(simple: string)
    ensures '[' in ModifySimpleClassName(simple) <==> '[' in simple
  {
    ModifiedAtMirror(simple);
    assert simple == simple[..MirrorAt(simple)] + simple[MirrorAt(simple)..];
  }

  /** `c` first occurs in `s` at `k`. */
  lemma FirstIndexUnique(s: string, c: char, k: nat)
    requires k < |s| && s[k] == c && c !in s[..k]
    ensures IndexOf(s, c) == k
  {
  }

  /** Takes the `Mirror` back out: from before the first `[`, or from the end. */
  function Unmirror(name: string): string
  {
    var p :=
      if '[' in name && IndexOf(name, '[') >= 6 then IndexOf(name, '[') - 6
      else if |name| >= 6 then |name| - 6
      else 0;
    if p + 6 <= |name| then name[..p] + name[p + 6..] else name
  }

  /** Taking the `Mirror` back out gives the original simple name. */
  lemma MirrorUndone(simple: string)
    ensures Unmirror(ModifySimpleClassName(simple)) == simple
  {
    var i := MirrorAt(simple);
    var r := ModifySimpleClassName(simple);
    ModifiedAtMirror(simple);
    assert r[..i] == simple[..i] && r[i + 6..] == simple[i..];
    if '[' in simple {
      assert r[i + 6] == '[';
      assert r[..i + 6] == simple[..i] + "Mirror";
      FirstIndexUnique(r, '[', i + 6);
    } else {
      MirrorKeepsBrackets(simple);
      assert i == |simple|;
    }
    assert simple == simple[..i] + simple[i..];
  }

  /** Distinct simple names get distinct mirror names. */
  lemma MirrorNameInjective(x: string, y: string)
    requires ModifySimpleClassName(x) == ModifySimpleClassName(y)
    ensures x == y
  {
    MirrorUndone(x);
    MirrorUndone(y);
  }

  /**
   * No bracket-free mirror name followed by `Impl` is itself a mirror name,
   * so an implementation class never takes a mirror's name.
   */
  lemma ImplementationNameIsNoMirrorName(x: string, y: string)
    requires '[' !in x
    ensures ModifySimpleClassName(x) + "Impl" != ModifySimpleClassName(y)
  {
    MirrorKeepsBrackets(x);
    MirrorKeepsBrackets(y);
    ModifiedAtMirror(x);
    ModifiedAtMirror(y);
    var lhs := ModifySimpleClassName(x) + "Impl";
    var rhs := ModifySimpleClassName(y);
    if '[' in y {
      assert '[' in rhs;
      assert '[' !in lhs by {
        assert forall k | 0 <= k < |lhs| :: lhs[k] != '[' by {
          forall k | 0 <= k < |lhs|
            ensures lhs[k] != '['
          {
            if k < |ModifySimpleClassName(x)| {
              assert lhs[k] == ModifySimpleClassName(x)[k];
            }
          }
        }
      }
    } else {
      assert rhs == y + "Mirror";
      assert lhs[|lhs| - 1] == 'l' && rhs[|rhs| - 1] == 'r';
    }
  }

  /** With the trailing `[`, `A[` and `A[Impl` show why the bracket-free premise is needed. */
  lemma BracketedImplementationCollides()
    ensures ModifySimpleClassName("A[") + "Impl" == ModifySimpleClassName("A[Impl")
  {
    MirrorAtUnique("A[", 1);
    ModifiedAtMirror("A[");
    MirrorAtUnique("A[Impl", 1);
    ModifiedAtMirror("A[Impl");
  }

  // ---------------------------------------------------------------------
  // Packages
  // ---------------------------------------------------------------------

  /** The regex `pattern` (literal characters, `.` matching any one) matches `s` at `i`. */
  predicate MatchesAt(s: string, pattern: string, i: nat)
  {
    i + |pattern| <= |s| && forall j | 0 <= j < |pattern| :: pattern[j] == '.' || s[i + j] == pattern[j]
  }

  /** The leftmost match at or after `from`. */
  function FirstMatch(s: string, pattern: string, from: nat): (r: Option<nat>)
    ensures r.Some? ==> from <= r.value && MatchesAt(s, pattern, r.value)
    ensures r.Some? ==> forall k | from <= k < r.value :: !MatchesAt(s, pattern, k)
    ensures r.None? ==> forall k | from <= k :: !MatchesAt(s, pattern, k)
    decreases |s| - from
  {
    if from + |pattern| > |s| then None
    else if MatchesAt(s, pattern, from) then Some(from)
    else FirstMatch(s, pattern, from + 1)
  }

  /** `s.replaceFirst(pattern, replacement)` for a pattern of literals and `.`, and a replacement without `$` or `\`. */
  function ReplaceFirst(s: string, pattern: string, replacement: string): (r: string)
  {
    match FirstMatch(s, pattern, 0)
    case None => s
    case Some(i) => s[..i] + replacement + s[i + |pattern|..]
  }

  /** A match at the very start is the first one: the text there is replaced. */
  lemma ReplaceFirstAtStart(s: string, pattern: string, replacement: string)
    requires MatchesAt(s, pattern, 0)
    ensures ReplaceFirst(s, pattern, replacement) == replacement + s[|pattern|..]
  {
    assert FirstMatch(s, pattern, 0) == Some(0);
  }

  /** Text without any match is left alone. */
  lemma ReplaceFirstNoMatch(s: string, pattern: string, replacement: string)
    requires forall k :: !MatchesAt(s, pattern, k)
    ensures ReplaceFirst(s, pattern, replacement) == s
  {
  }

  /** `p.substring(0, p.lastIndexOf('.'))`. */
  function ParentPrefix(p: string): (r: string)
    requires '.' in p
    ensures StartsWith(p, r) && |r| < |p| && p[|r|] == '.' && '.' !in p[|r| + 1..]
  {
    p[..LastIndexOf(p, '.')]
  }

  predicate Dotted(packages: seq<string>)
  {
    forall i | 0 <= i < |packages| :: '.' in packages[i]
  }

  /**
   * The loop of `getModifiedPackage` over `packages`: the first one that
   * `packageName` contains decides, and the first match of its parent prefix
   * (read as a regex) is replaced by the target; none gives `null`.
   */
  function ModifiedPackageIn(packageName: string, target: string, packages: seq<string>): (r: Option<string>)
    requires Dotted(packages)
    ensures r.None? <==> forall i | 0 <= i < |packages| :: !Contains(packageName, packages[i])
    ensures r.Some? ==> exists i | 0 <= i < |packages| ::
      && Contains(packageName, packages[i])
      && (forall j | 0 <= j < i :: !Contains(packageName, packages[j]))
      && r.value == ReplaceFirst(packageName, ParentPrefix(packages[i]), target)
  {
    if packages == [] then None
    else if Contains(packageName, packages[0]) then
      Some(ReplaceFirst(packageName, ParentPrefix(packages[0]), target))
    else
      var r := ModifiedPackageIn(packageName, target, packages[1..]);
      assert forall i | 1 <= i < |packages| :: packages[i] == packages[1..][i - 1];
      r
  }

  /** `getModifiedPackage(c)` of a class in package `packageName`. */
  function GetModifiedPackage(target: string, packageName: string): (r: Option<string>)
    ensures r.None? <==> forall i | 0 <= i < |IncludedPackages| :: !Contains(packageName, IncludedPackages[i])
  {
    assert Dotted(IncludedPackages) by {
      assert '.' in IncludedPackages[0] by { assert IncludedPackages[0][2] == '.'; }
      assert '.' in IncludedPackages[1] by { assert IncludedPackages[1][3] == '.'; }
      assert '.' in IncludedPackages[2] by { assert IncludedPackages[2][2] == '.'; }
      assert '.' in IncludedPackages[3] by { assert IncludedPackages[3][3] == '.'; }
      assert '.' in IncludedPackages[4] by { assert IncludedPackages[4][3] == '.'; }
      assert '.' in IncludedPackages[5] by { assert IncludedPackages[5][3] == '.'; }
    }
    ModifiedPackageIn(packageName, target, IncludedPackages)
  }

  /** A literal occurrence of `p` is a regex match of any prefix of `p`. */
  lemma PrefixMatches(s: string, p: string, q: string)
    requires StartsWith(s, p) && StartsWith(p, q)
    ensures MatchesAt(s, q, 0)
  {
    assert forall j | 0 <= j < |q| :: s[j] == p[j] == q[j];
  }

  /**
   * A package that starts with the first included package it contains is
   * moved under the target: that package's parent prefix is swapped for the
   * target, the rest is kept.
   */
  lemma ScannedPackageRewritten(target: string, packageName: string, i: nat)
    requires i < |IncludedPackages| && StartsWith(packageName, IncludedPackages[i])
    requires forall j | 0 <= j < i :: !Contains(packageName, IncludedPackages[j])
    ensures GetModifiedPackage(target, packageName)
      == Some(target + packageName[|ParentPrefix(IncludedPackages[i])|..])
  {
    var inc := IncludedPackages[i];
    assert StartsWith(packageName[0..], inc);
    assert Contains(packageName, inc);
    var r := GetModifiedPackage(target, packageName);
    var k :| 0 <= k < |IncludedPackages| && Contains(packageName, IncludedPackages[k])
      && (forall j | 0 <= j < k :: !Contains(packageName, IncludedPackages[j]))
      && r.value == ReplaceFirst(packageName, ParentPrefix(IncludedPackages[k]), target);
    assert k == i;
    PrefixMatches(packageName, inc, ParentPrefix(inc));
    ReplaceFirstAtStart(packageName, ParentPrefix(inc), target);
  }

  /** A text missing one of `t`'s characters does not contain `t`. */
  lemma MissingCharacter(s: string, t: string, c: char)
    requires c in t && c !in s
    ensures !Contains(s, t)
  {
    forall i | 0 <= i <= |s|
      ensures !StartsWith(s[i..], t)
    {
      if StartsWith(s[i..], t) {
        assert false;
      }
    }
  }

  /** `org.bukkit` is the parent of `org.bukkit` sub-packages that get moved: its prefix is `org`. */
  lemma BukkitPrefix()
    ensures ParentPrefix(IncludedPackages[3]) == "org"
  {
    var p := IncludedPackages[3];
    assert p == "org.bukkit";
    assert p[3] == '.' && '.' !in p[4..];
  }

  /** `org.bukkit.entity` contains none of the three packages listed before `org.bukkit`. */
  lemma BukkitEntityNotEarlier()
    ensures forall j | 0 <= j < 3 :: !Contains("org.bukkit.entity", IncludedPackages[j])
  {
    var s := "org.bukkit.entity";
    assert IncludedPackages[0][3] == 'a';
    MissingCharacter(s, IncludedPackages[0], 'a');
    assert IncludedPackages[1][2] == 'm';
    MissingCharacter(s, IncludedPackages[1], 'm');
    assert IncludedPackages[2][3] == 'p';
    MissingCharacter(s, IncludedPackages[2], 'p');
  }

  /** `org.bukkit.entity` is mirrored in `org.mockbukkit.integrationtester.bukkit.entity`. */
  lemma BukkitEntityPackage()
    ensures GetModifiedPackage(TargetPackage, "org.bukkit.entity") == Some("org.mockbukkit.integrationtester.bukkit.entity")
  {
    BukkitEntityRewritten();
    BukkitEntityText();
  }

  lemma BukkitEntityText()
    ensures TargetPackage + "org.bukkit.entity"[3..] == "org.mockbukkit.integrationtester.bukkit.entity"
  {
    assert "org.bukkit.entity"[3..] == ".bukkit.entity";
  }

  lemma BukkitEntityRewritten()
    ensures GetModifiedPackage(TargetPackage, "org.bukkit.entity") == Some(TargetPackage + "org.bukkit.entity"[3..])
  {
    var s := "org.bukkit.entity";
    BukkitEntityNotEarlier();
    assert StartsWith(s, IncludedPackages[3]);
    BukkitPrefix();
    ScannedPackageRewritten(TargetPackage, s, 3);
  }

  /** A package that contains none of the included packages gets no mirror. */
  lemma UnrelatedPackage()
    ensures GetModifiedPackage(TargetPackage, "java.util") == None
  {
    var s := "java.util";
    MissingCharacter(s, IncludedPackages[0], 'k');
    MissingCharacter(s, IncludedPackages[1], 'p');
    MissingCharacter(s, IncludedPackages[2], 'p');
    MissingCharacter(s, IncludedPackages[3], 'b');
    MissingCharacter(s, IncludedPackages[4], 'g');
    MissingCharacter(s, IncludedPackages[5], 'k');
  }

  // ---------------------------------------------------------------------
  // Class names of a scanned class tree
  // ---------------------------------------------------------------------

  /** The number of classes in a scanned forest. */
  function InfoSize(infos: seq<ClassInfo>): nat
  {
    if infos == [] then 0 else InfoSize(infos[..|infos| - 1]) + 1 + InfoSize(infos[|infos| - 1].inner)
  }

  /** The sub-package suffix for the classes nested in `c`: `.Internal<c's mirror name>`. */
  function NestedSuffix(suffix: string, c: ClassRef): (r: string)
    ensures StartsWith(r, suffix)
  {
    var r := suffix + ".Internal" + ModifySimpleClassName(c.SimpleName());
    assert r[..|suffix|] == suffix;
    r
  }

  /** The mirror name of a class with a mirror package, under a package suffix. */
  function MirrorName(target: string, c: ClassRef, suffix: string): ClassName
    requires GetModifiedPackage(target, c.PackageName()).Some?
  {
    ClassName(GetModifiedPackage(target, c.PackageName()).value + suffix, [], ModifySimpleClassName(c.SimpleName()))
  }

  /**
   * `determineClassNames(classInfos, packageSuffix)`: class by class, the
   * names of the nested classes (under the nested suffix), then the class's
   * own name when its package has a mirror package; later entries win.
   */
  function ClassNamesOf(target: string, infos: seq<ClassInfo>, suffix: string): map<ClassRef, ClassName>
    decreases InfoSize(infos)
  {
    if infos == [] then map[]
    else
      var c := infos[|infos| - 1];
      var prior := ClassNamesOf(target, infos[..|infos| - 1], suffix);
      var output := prior + ClassNamesOf(target, c.inner, NestedSuffix(suffix, c.cls));
      if GetModifiedPackage(target, c.cls.PackageName()).Some? then output[c.cls := MirrorName(target, c.cls, suffix)]
      else output
  }

  /** Every class in a scanned forest, at any depth. */
  function Classes(infos: seq<ClassInfo>): set<ClassRef>
    decreases InfoSize(infos)
  {
    if infos == [] then {}
    else
      var c := infos[|infos| - 1];
      Classes(infos[..|infos| - 1]) + Classes(c.inner) + {c.cls}
  }

  /** Exactly the classes of the forest whose package has a mirror package get a name. */
  lemma {:induction false} ClassNamesKeys(target: string, infos: seq<ClassInfo>, suffix: string)
    ensures forall c :: c in ClassNamesOf(target, infos, suffix) <==>
      c in Classes(infos) && GetModifiedPackage(target, c.PackageName()).Some?
    decreases InfoSize(infos)
  {
    if infos != [] {
      var c := infos[|infos| - 1];
      ClassNamesKeys(target, infos[..|infos| - 1], suffix);
      ClassNamesKeys(target, c.inner, NestedSuffix(suffix, c.cls));
    }
  }

  /** One step of `determineClassNames`: where the entry of a class comes from. */
  lemma ClassNamesLookup(target: string, infos: seq<ClassInfo>, suffix: string, d: ClassRef)
    requires infos != []
    ensures var c := infos[|infos| - 1];
      var prior := ClassNamesOf(target, infos[..|infos| - 1], suffix);
      var inner := ClassNamesOf(target, c.inner, NestedSuffix(suffix, c.cls));
      var names := ClassNamesOf(target, infos, suffix);
      var own := GetModifiedPackage(target, c.cls.PackageName()).Some? && d == c.cls;
      && (d in names <==> own || d in inner || d in prior)
      && (own ==> names[d] == MirrorName(target, c.cls, suffix))
      && (!own && d in inner ==> names[d] == inner[d])
      && (!own && d !in inner && d in prior ==> names[d] == prior[d])
  {
  }

  /**
   * The entry of one class is its mirror simple name in its mirror package
   * followed by the suffix and whatever nesting added.
   */
  lemma {:induction false} ClassNameShape(target: string, infos: seq<ClassInfo>, suffix: string, d: ClassRef)
    requires d in ClassNamesOf(target, infos, suffix)
    ensures var names := ClassNamesOf(target, infos, suffix);
      && GetModifiedPackage(target, d.PackageName()).Some?
      && names[d].simpleName == ModifySimpleClassName(d.SimpleName())
      && names[d].enclosing == []
      && StartsWith(names[d].packageName, GetModifiedPackage(target, d.PackageName()).value + suffix)
    decreases InfoSize(infos)
  {
    var c := infos[|infos| - 1];
    var nested := NestedSuffix(suffix, c.cls);
    var inner := ClassNamesOf(target, c.inner, nested);
    ClassNamesLookup(target, infos, suffix, d);
    if GetModifiedPackage(target, c.cls.PackageName()).Some? && d == c.cls {
      var p := GetModifiedPackage(target, d.PackageName()).value + suffix;
      assert p[..|p|] == p;
    } else if d in inner {
      ClassNameShape(target, c.inner, nested, d);
      StartsWithAppend(inner[d].packageName, GetModifiedPackage(target, d.PackageName()).value, suffix, nested);
    } else {
      ClassNameShape(target, infos[..|infos| - 1], suffix, d);
    }
  }

  /**
   * Every name is the class's mirror simple name in its mirror package
   * followed by the suffix and whatever nesting added.
   */
  lemma ClassNamesShape(target: string, infos: seq<ClassInfo>, suffix: string)
    ensures var names := ClassNamesOf(target, infos, suffix);
      forall c | c in names ::
        && GetModifiedPackage(target, c.PackageName()).Some?
        && names[c].simpleName == ModifySimpleClassName(c.SimpleName())
        && names[c].enclosing == []
        && StartsWith(names[c].packageName, GetModifiedPackage(target, c.PackageName()).value + suffix)
  {
    forall c | c in ClassNamesOf(target, infos, suffix)
      ensures var names := ClassNamesOf(target, infos, suffix);
        && GetModifiedPackage(target, c.PackageName()).Some?
        && names[c].simpleName == ModifySimpleClassName(c.SimpleName())
        && names[c].enclosing == []
        && StartsWith(names[c].packageName, GetModifiedPackage(target, c.PackageName()).value + suffix)
    {
      ClassNameShape(target, infos, suffix, c);
    }
  }

  /** A text starting with `p + t`, where `t` starts with `s`, starts with `p + s`. */
  lemma StartsWithAppend(x: string, p: string, s: string, t: string)
    requires StartsWith(x, p + t) && StartsWith(t, s)
    ensures StartsWith(x, p + s)
  {
    assert x[..|p + s|] == (p + t)[..|p + s|] == p + s;
  }

  /** A single scanned class with a mirror package: its nested classes' names, then its own. */
  lemma SingleClassNames(target: string, info: ClassInfo, suffix: string)
    requires GetModifiedPackage(target, info.cls.PackageName()).Some?
    ensures ClassNamesOf(target, [info], suffix)
      == ClassNamesOf(target, info.inner, NestedSuffix(suffix, info.cls))[info.cls := MirrorName(target, info.cls, suffix)]
  {
    var inner := ClassNamesOf(target, info.inner, NestedSuffix(suffix, info.cls));
    var none: seq<ClassInfo> := [];
    var empty := ClassNamesOf(target, none, suffix);
    calc {
      ClassNamesOf(target, [info], suffix);
    == { ClassNamesStep(target, [info], suffix); assert [info][..0] == none; }
      (empty + inner)[info.cls := MirrorName(target, info.cls, suffix)];
    == { assert empty == map[]; assert empty + inner == inner; }
      inner[info.cls := MirrorName(target, info.cls, suffix)];
    }
  }

  /** The names of a non-empty forest: those of all but its last tree, then the last tree's inner names, then its own. */
  lemma ClassNamesStep(target: string, infos: seq<ClassInfo>, suffix: string)
    requires infos != []
    ensures var c := infos[|infos| - 1];
      var output := ClassNamesOf(target, infos[..|infos| - 1], suffix) + ClassNamesOf(target, c.inner, NestedSuffix(suffix, c.cls));
      ClassNamesOf(target, infos, suffix)
        == if GetModifiedPackage(target, c.cls.PackageName()).Some? then output[c.cls := MirrorName(target, c.cls, suffix)] else output
  {
  }

  /**
   * A class nested (without further nesting) in a scanned class goes into the
   * `Internal<Outer>Mirror` sub-package of its own mirror package: for
   * `org.bukkit.entity.Player.Spigot` that is
   * `org.mockbukkit.integrationtester.bukkit.entity.InternalPlayerMirror.SpigotMirror`.
   */
  lemma NestedClassName(target: string, outer: ClassInfo, i: nat, suffix: string)
    requires GetModifiedPackage(target, outer.cls.PackageName()).Some?
    requires i < |outer.inner| && outer.inner[i].inner == [] && outer.inner[i].cls != outer.cls
    requires NotRepeated(outer.inner, i)
    requires GetModifiedPackage(target, outer.inner[i].cls.PackageName()).Some?
    ensures var c := outer.inner[i].cls;
      var names := ClassNamesOf(target, [outer], suffix);
      && c in names
      && names[c] == ClassName(GetModifiedPackage(target, c.PackageName()).value + suffix + ".Internal"
                                 + ModifySimpleClassName(outer.cls.SimpleName()),
                               [], ModifySimpleClassName(c.SimpleName()))
  {
    var c := outer.inner[i].cls;
    var nested := NestedSuffix(suffix, outer.cls);
    SingleClassNames(target, outer, suffix);
    LaterEntryKept(target, outer.inner, i, nested);
    Reassociate(GetModifiedPackage(target, c.PackageName()).value, suffix, ModifySimpleClassName(outer.cls.SimpleName()));
  }

  lemma Reassociate(p: string, suffix: string, mirror: string)
    ensures p + (suffix + ".Internal" + mirror) == p + suffix + ".Internal" + mirror
  {
  }

  /** No class after the `i`-th, nor any class nested in one, is the `i`-th class. */
  predicate NotRepeated(infos: seq<ClassInfo>, i: nat)
    requires i < |infos|
  {
    forall j | i < j < |infos| :: infos[j].cls != infos[i].cls && infos[i].cls !in Classes(infos[j].inner)
  }

  /** A class that no later class repeats is not repeated in a prefix either, nor by the last class. */
  lemma NotRepeatedPrefix(infos: seq<ClassInfo>, i: nat)
    requires i < |infos| - 1 && NotRepeated(infos, i)
    ensures infos[..|infos| - 1][i] == infos[i] && NotRepeated(infos[..|infos| - 1], i)
    ensures infos[i].cls != infos[|infos| - 1].cls && infos[i].cls !in Classes(infos[|infos| - 1].inner)
  {
    var prefix := infos[..|infos| - 1];
    assert forall j | i < j < |prefix| :: prefix[j] == infos[j];
  }

  /** The entry of a leaf class that no later class repeats is its own mirror name. */
  lemma {:induction false} LaterEntryKept(target: string, infos: seq<ClassInfo>, i: nat, suffix: string)
    requires i < |infos| && infos[i].inner == [] && NotRepeated(infos, i)
    requires GetModifiedPackage(target, infos[i].cls.PackageName()).Some?
    ensures var names := ClassNamesOf(target, infos, suffix);
      infos[i].cls in names && names[infos[i].cls] == MirrorName(target, infos[i].cls, suffix)
    decreases |infos|
  {
    var c := infos[i].cls;
    var last := infos[|infos| - 1];
    var prefix := infos[..|infos| - 1];
    ClassNamesLookup(target, infos, suffix, c);
    if i < |infos| - 1 {
      NotRepeatedPrefix(infos, i);
      LaterEntryKept(target, prefix, i, suffix);
      ClassNamesKeys(target, last.inner, NestedSuffix(suffix, last.cls));
    }
  }
}
