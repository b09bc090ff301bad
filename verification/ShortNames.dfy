/** FAT 8.3 names: packing a name into eleven space-padded upper-case
    characters, showing such a field again, and comparing without case.
 */
module ShortNames {
  const BLANK: char := ' '

  function Up(c: char): char {
    if 'a' <= c <= 'z' then c - 'a' + 'A' else c
  }

  function Upper(s: string): (r: string)
    ensures |r| == |s| && forall i :: 0 <= i < |s| ==> r[i] == Up(s[i])
  {
    seq(|s|, i requires 0 <= i < |s| => Up(s[i]))
  }

  /** Equality up to the case of ASCII letters. */
  predicate SameName(a: string, b: string) {
    Upper(a) == Upper(b)
  }

  /** The index of the first c at or after i, or the length. */
  function Find(s: string, c: char, i: nat): (r: nat)
    requires i <= |s|
    ensures i <= r <= |s| && (r < |s| ==> s[r] == c)
    ensures forall k :: i <= k < r ==> s[k] != c
    decreases |s| - i
  {
    if i < |s| && s[i] != c then Find(s, c, i + 1) else i
  }

  function Least(a: nat, b: nat): nat {
    if a < b then a else b
  }

  function Padded(s: string, n: nat): (r: string)
    requires |s| <= n
    ensures |r| == n && r[..|s|] == s && forall i :: |s| <= i < n ==> r[i] == BLANK
  {
    s + seq(n - |s|, _ => BLANK)
  }

  function Base(name: string): (r: string)
    ensures |r| <= 8
  {
    name[..Least(Find(name, '.', 0), 8)]
  }

  function Extension(name: string): (r: string)
    ensures |r| <= 3
  {
    var dot := Find(name, '.', 0);
    if dot == |name| then "" else name[dot + 1..Least(dot + 4, |name|)]
  }

  /** to_83: the raw directory field of a name. */
  function Pack(name: string): (r: string)
    ensures |r| == 11
  {
    Padded(Upper(Base(name)), 8) + Padded(Upper(Extension(name)), 3)
  }

  /** format_83: the name a raw field shows. */
  function Shown(raw: string): string
    requires |raw| == 11
  {
    var base := raw[..Least(Find(raw, BLANK, 0), 8)];
    if raw[8] == BLANK then base else base + "." + raw[8..Find(raw, BLANK, 8)]
  }

  /** At most eight characters before the first dot, one to three behind it if
      there is one, and no blank: the names that fit a directory field. */
  predicate Exact(name: string) {
    var dot := Find(name, '.', 0);
    && dot <= 8 && BLANK !in name[..dot]
    && (dot < |name| ==> 1 <= |name| - dot - 1 <= 3 && BLANK !in name[dot + 1..])
  }

  lemma UpKeeps(c: char)
    ensures Up(c) == BLANK <==> c == BLANK
    ensures Up(c) == '.' <==> c == '.'
    ensures Up(Up(c)) == Up(c)
  {
  }

  lemma FindPadded(s: string, n: nat, tail: string, i: nat)
    requires |s| <= n && BLANK !in s && i <= |s| && (|s| == n ==> tail == "" || i <= n)
    ensures Least(Find(Padded(s, n) + tail, BLANK, i), n) == |s|
    decreases |s| - i
  {
    var p := Padded(s, n) + tail;
    assert forall k :: 0 <= k < |s| ==> p[k] == s[k];
    if i < |s| {
      assert s[i] in s;
      FindPadded(s, n, tail, i + 1);
    }
  }

  lemma ShownParts(base: string, ext: string)
    requires |base| <= 8 && BLANK !in base && |ext| <= 3 && BLANK !in ext
    ensures Shown(Padded(base, 8) + Padded(ext, 3)) == if ext == "" then base else base + "." + ext
  {
    var raw := Padded(base, 8) + Padded(ext, 3);
    FindPadded(base, 8, Padded(ext, 3), 0);
    assert raw[..|base|] == base;
    if ext != "" {
      assert raw[8] == ext[0] && ext[0] in ext;
      FindExt(Padded(base, 8), ext, 8);
      assert raw[8..8 + |ext|] == ext;
    } else {
      assert raw[8] == BLANK;
    }
  }

  lemma NameParts(name: string)
    requires Exact(name)
    ensures var base, ext := Base(name), Extension(name);
            && BLANK !in base && BLANK !in ext
            && Upper(name) == if ext == "" then Upper(base) else Upper(base) + "." + Upper(ext)
  {
    var dot := Find(name, '.', 0);
    var base, ext := Base(name), Extension(name);
    assert base == name[..dot];
    if dot < |name| {
      assert ext == name[dot + 1..];
      assert name == base + "." + ext;
      assert Upper(name) == Upper(base) + "." + Upper(ext);
    } else {
      assert name == base;
    }
  }

  /** Packing such a name and showing it gives the name back in upper case. */
  lemma ShownPacked(name: string)
    requires Exact(name)
    ensures Shown(Pack(name)) == Upper(name)
  {
    hide Shown;
    hide Exact;
    NameParts(name);
    UpperPlain(Base(name));
    UpperPlain(Extension(name));
    hide Base;
    hide Extension;
    ShownParts(Upper(Base(name)), Upper(Extension(name)));
  }

  lemma FindExt(front: string, ext: string, i: nat)
    requires |front| == 8 && |ext| <= 3 && BLANK !in ext && 8 <= i <= 8 + |ext|
    ensures Find(front + Padded(ext, 3), BLANK, i) == 8 + |ext|
    decreases 8 + |ext| - i
  {
    var p := front + Padded(ext, 3);
    if i < 8 + |ext| {
      assert p[i] == ext[i - 8] && ext[i - 8] in ext;
      FindExt(front, ext, i + 1);
    } else if i < 11 {
      assert p[i] == BLANK;
    }
  }

  lemma UpperPlain(s: string)
    requires BLANK !in s
    ensures BLANK !in Upper(s)
  {
    forall i | 0 <= i < |s|
      ensures Upper(s)[i] != BLANK
    {
      assert s[i] in s;
      UpKeeps(s[i]);
    }
  }

  lemma UpperTwice(s: string)
    ensures Upper(Upper(s)) == Upper(s)
  {
    forall i | 0 <= i < |s|
      ensures Upper(Upper(s))[i] == Upper(s)[i]
    {
      UpKeeps(s[i]);
    }
  }

  lemma NoDot(s: string)
    requires '.' !in s
    ensures '.' !in Upper(s)
  {
    forall i | 0 <= i < |s|
      ensures Upper(s)[i] != '.'
    {
      assert s[i] in s;
      UpKeeps(s[i]);
    }
  }

  lemma BaseHasNoDot(name: string)
    ensures '.' !in Upper(Base(name))
  {
    NoDot(Base(name));
  }

  /** Whatever was packed, what it shows is such a name. */
  lemma ShownIsExact(raw: string)
    requires |raw| == 11 && '.' !in raw[..8]
    ensures Exact(Shown(raw))
  {
    var n := Least(Find(raw, BLANK, 0), 8);
    var base := raw[..n];
    var shown := Shown(raw);
    assert forall i :: 0 <= i < n ==> shown[i] == raw[i] == raw[..8][i] && raw[i] != BLANK;
    FindAt(shown, '.', 0, n);
    if raw[8] != BLANK {
      var ext := raw[8..Find(raw, BLANK, 8)];
      assert shown == base + "." + ext;
      assert shown[n + 1..] == ext;
      assert forall i :: 0 <= i < |ext| ==> ext[i] == raw[8 + i];
    }
  }

  lemma {:induction false} FindAt(s: string, c: char, i: nat, n: nat)
    requires i <= n <= |s| && (forall k :: i <= k < n ==> s[k] != c) && (n == |s| || s[n] == c)
    ensures Find(s, c, i) == n
    decreases n - i
  {
    if i < n {
      FindAt(s, c, i + 1, n);
    }
  }

  /** The shape depends on the dots and blanks only, which case does not move. */
  lemma SameShape(a: string, b: string)
    requires SameName(a, b) && Exact(a)
    ensures Exact(b)
  {
    forall i | 0 <= i < |a|
      ensures (a[i] == '.' <==> b[i] == '.') && (a[i] == BLANK <==> b[i] == BLANK)
    {
      assert Upper(a)[i] == Upper(b)[i];
      UpKeeps(a[i]);
      UpKeeps(b[i]);
    }
    assert |a| == |Upper(a)| == |b|;
    var dot := Find(a, '.', 0);
    FindAt(b, '.', 0, dot);
    assert forall i :: 0 <= i < dot ==> a[i] == a[..dot][i] && a[i] != BLANK;
    if dot < |a| {
      assert forall i :: dot < i < |a| ==> a[i] == a[dot + 1..][i - dot - 1] && a[i] != BLANK;
    }
  }

  /** A name written to a directory is found again exactly when it fits the field. */
  lemma FoundAgainIff(name: string)
    ensures SameName(Shown(Pack(name)), name) <==> Exact(name)
  {
    if Exact(name) {
      ShownPacked(name);
      UpperTwice(name);
    } else if SameName(Shown(Pack(name)), name) {
      BaseHasNoDot(name);
      PackedBase(name);
      ShownIsExact(Pack(name));
      SameShape(Shown(Pack(name)), name);
    }
  }

  lemma PackedBase(name: string)
    requires '.' !in Upper(Base(name))
    ensures '.' !in Pack(name)[..8]
  {
    var base := Upper(Base(name));
    var field := Padded(base, 8);
    assert Pack(name)[..8] == field;
    forall i | 0 <= i < 8
      ensures field[i] != '.'
    {
      assert i < |base| ==> field[i] == field[..|base|][i] == base[i] && base[i] in base;
    }
  }

  /** A directory field written for a name matches just the names that differ from
      it at most in case, exactly when the name fits. */
  lemma MatchIff(name: string)
    ensures (forall other :: SameName(Shown(Pack(name)), other) <==> SameName(name, other)) <==> Exact(name)
  {
    FoundAgainIff(name);
    assert SameName(name, name);
  }

  /** A name that does not fit. */
  lemma LongNameIsCut()
    ensures !Exact("longfilename") && Shown(Pack("longfilename")) == "LONGFILE"
  {
    var name := "longfilename";
    FindAt(name, '.', 0, 12);
    assert Base(name) == "longfile" && Extension(name) == "";
    assert Upper("longfile") == "LONGFILE";
    ShownParts("LONGFILE", "");
    assert Upper("") == "";
  }

  // The loops of the code.

  /** ci_equal. */
  method CompareNames(a: string, b: string) returns (same: bool)
    ensures same == SameName(a, b)
  {
    var i := 0;
    while i < |a| && i < |b|
      invariant 0 <= i <= |a| && i <= |b|
      invariant forall k :: 0 <= k < i ==> Up(a[k]) == Up(b[k])
    {
      if Up(a[i]) != Up(b[i]) {
        assert Upper(a)[i] != Upper(b)[i];
        return false;
      }
      i := i + 1;
    }
    same := i == |a| && i == |b|;
    assert |a| != |b| ==> |Upper(a)| != |Upper(b)|;
  }

  /** to_83. */
  method PackName(name: string) returns (raw: string)
    ensures raw == Pack(name)
  {
    var base, i := PackBase(name);
    while i < |name| && name[i] != '.'
      invariant 0 <= i <= Find(name, '.', 0)
    {
      i := i + 1;
    }
    var ext := "";
    if i < |name| {
      ext := PackExtension(name, i);
    }
    raw := Padded(base, 8) + Padded(ext, 3);
  }

  method PackBase(name: string) returns (base: string, i: nat)
    ensures base == Upper(Base(name)) && i <= Find(name, '.', 0)
  {
    base, i := "", 0;
    while i < |name| && name[i] != '.' && |base| < 8
      invariant 0 <= i <= |name| && i == |base| <= 8 && i <= Find(name, '.', 0)
      invariant base == Upper(name[..i])
    {
      base := base + [Up(name[i])];
      assert name[..i + 1] == name[..i] + [name[i]];
      i := i + 1;
    }
  }

  method PackExtension(name: string, dot: nat) returns (ext: string)
    requires dot == Find(name, '.', 0) < |name|
    ensures ext == Upper(Extension(name))
  {
    ext := "";
    var i := dot + 1;
    while i < |name| && |ext| < 3
      invariant dot < i <= |name| && |ext| == i - dot - 1 <= 3
      invariant ext == Upper(name[dot + 1..i])
    {
      ext := ext + [Up(name[i])];
      assert name[dot + 1..i + 1] == name[dot + 1..i] + [name[i]];
      i := i + 1;
    }
  }

  /** format_83. */
  method ShowName(raw: string) returns (name: string)
    requires |raw| == 11
    ensures name == Shown(raw)
  {
    name := "";
    var i := 0;
    while i < 8 && raw[i] != BLANK
      invariant 0 <= i <= 8 && name == raw[..i]
      invariant Find(raw, BLANK, 0) == Find(raw, BLANK, i)
    {
      name := name + [raw[i]];
      i := i + 1;
    }
    ghost var base := name;
    assert base == raw[..Least(Find(raw, BLANK, 0), 8)];
    if raw[8] != BLANK {
      name := name + ".";
      i := 8;
      while i < 11 && raw[i] != BLANK
        invariant 8 <= i <= 11 && name == base + "." + raw[8..i]
        invariant Find(raw, BLANK, 8) == Find(raw, BLANK, i)
      {
        name := name + [raw[i]];
        i := i + 1;
      }
    }
  }
}
