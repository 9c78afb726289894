/** Naming rules of vocbase.c: which collection names are allowed, and the
    `collection-<id>` / `deleted-<id>` directory conventions. */
module CollectionNames {
  import opened Chars
  import opened VocBaseTypes

  const MaxNameLength: nat := 64

  /** A character allowed after the first one (and first, for system names). */
  predicate IsNameChar(c: char) { c == '_' || c == '-' || IsDigit(c) || IsLetter(c) }

  /** The naming rule stated declaratively: 1 to 64 characters, a letter first
      (any name character first for a system collection), name characters
      after that. */
  predicate ValidName(isSystem: bool, name: string) {
    1 <= |name| <= MaxNameLength
    && (IsLetter(name[0]) || (isSystem && IsNameChar(name[0])))
    && forall i :: 1 <= i < |name| ==> IsNameChar(name[i])
  }

  /** The test the loop of TRI_IsAllowedCollectionName applies at position `j`. */
  predicate AllowedAt(isSystem: bool, name: string, j: nat)
    requires j < |name|
  {
    if 0 < j || isSystem then IsNameChar(name[j]) else IsLetter(name[j])
  }

  /** The character loop of TRI_IsAllowedCollectionName, from position `i` on. */
  function CharsAllowedFrom(isSystem: bool, name: string, i: nat): (ok: bool)
    requires i <= |name|
    ensures ok <==> forall j :: i <= j < |name| ==> AllowedAt(isSystem, name, j)
    decreases |name| - i
  {
    if i == |name| then true
    else AllowedAt(isSystem, name, i) && CharsAllowedFrom(isSystem, name, i + 1)
  }

  /** TRI_IsAllowedCollectionName: every character passes the loop's test and
      the length is between 1 and 64. Names are C strings, so they never
      contain a NUL character. */
  function IsAllowedCollectionName(isSystem: bool, name: string): (ok: bool)
    ensures ok <==> ValidName(isSystem, name)
  {
    var charsOk := CharsAllowedFrom(isSystem, name, 0);
    LoopTestMatchesRule(isSystem, name);
    charsOk && 0 < |name| <= MaxNameLength
  }

  lemma LoopTestMatchesRule(isSystem: bool, name: string)
    ensures 0 < |name| ==>
            ((forall j :: 0 <= j < |name| ==> AllowedAt(isSystem, name, j))
             <==> (IsLetter(name[0]) || (isSystem && IsNameChar(name[0]))) && forall i :: 1 <= i < |name| ==> IsNameChar(name[i]))
  {
    if 0 < |name| && forall j :: 0 <= j < |name| ==> AllowedAt(isSystem, name, j) {
      forall i | 1 <= i < |name| ensures IsNameChar(name[i]) {
        assert AllowedAt(isSystem, name, i);
      }
      assert AllowedAt(isSystem, name, 0);
    }
  }

  /** A system name may start with `_`; an ordinary one may not. */
  lemma SystemPrefixOnlyForSystem(name: string)
    requires |name| > 0 && name[0] == '_'
    ensures !IsAllowedCollectionName(false, name)
    ensures IsAllowedCollectionName(true, name) <==> |name| <= MaxNameLength && forall i :: 1 <= i < |name| ==> IsNameChar(name[i])
  {
  }

  /** Every name allowed for an ordinary collection is allowed for a system one. */
  lemma OrdinaryNamesAreSystemNames(name: string)
    requires IsAllowedCollectionName(false, name)
    ensures IsAllowedCollectionName(true, name)
  {
  }

  // ---------------------------------------------------------------------------
  // Directory names
  // ---------------------------------------------------------------------------

  const CollectionPrefix: string := "collection-"
  const DeletedPrefix: string := "deleted-"

  /** `TRI_Concatenate2File`: a directory and a name joined by `/`. */
  function JoinPath(dir: string, name: string): string { dir + "/" + name }

  /** The regular expression `^collection-([0-9][0-9]*)$`, compiled with
      REG_ICASE, so the prefix matches in any letter case. */
  predicate IsCollectionDirectoryName(name: string): (b: bool)
    ensures b ==> '/' !in name && |name| > |CollectionPrefix|
  {
    |name| > |CollectionPrefix|
    && Lower(name[..|CollectionPrefix|]) == CollectionPrefix
    && AllDigits(name[|CollectionPrefix|..])
  }

  /** The digits the expression captures. */
  function DirectoryDigits(name: string): (digits: string)
    requires IsCollectionDirectoryName(name)
    ensures digits != [] && AllDigits(digits) && name == name[..|CollectionPrefix|] + digits
  {
    name[|CollectionPrefix|..]
  }

  /** `"deleted-" + digits`, the name a dropped collection's directory gets. */
  function DeletedDirectoryName(digits: string): string { DeletedPrefix + digits }

  /** The directory name a collection with identifier `cid` is created under. */
  function CollectionDirectoryName(cid: nat): string { CollectionPrefix + NatToString(cid) }

  /** Directory names written for an identifier are recognised, and the
      captured digits give the identifier back. */
  lemma CollectionDirectoryNameRoundTrip(cid: nat)
    ensures IsCollectionDirectoryName(CollectionDirectoryName(cid))
    ensures DigitsValue(DirectoryDigits(CollectionDirectoryName(cid))) == cid
  {
    var name := CollectionDirectoryName(cid);
    assert name[..|CollectionPrefix|] == CollectionPrefix;
    assert name[|CollectionPrefix|..] == NatToString(cid);
    LowerIdempotent(CollectionPrefix);
    DigitsValueOfNatToString(cid);
  }

  /** Index of the last `/` in `path`, if any. */
  function LastSlash(path: string): (r: Option<nat>)
    ensures r.Some? ==> r.value < |path| && path[r.value] == '/'
    ensures r.Some? ==> forall j :: r.value < j < |path| ==> path[j] != '/'
    ensures r.None? ==> forall j :: 0 <= j < |path| ==> path[j] != '/'
  {
    if path == [] then None
    else if path[|path| - 1] == '/' then Some(|path| - 1)
    else LastSlash(path[..|path| - 1])
  }

  /** The rename target DropCollectionCallback computes with the expression
      `^(.*)/collection-([0-9][0-9]*)$` (REG_ICASE): `<dir>/deleted-<digits>`,
      or nothing when the path does not match. A match always splits at the
      last `/`, because the captured digits contain none. */
  function DroppedPath(path: string): (r: Option<string>)
    ensures r.Some? ==> |r.value| + |CollectionPrefix| == |path| + |DeletedPrefix|
  {
    match LastSlash(path)
    case None => None
    case Some(k) =>
      var last := path[k + 1..];
      if IsCollectionDirectoryName(last) then Some(JoinPath(path[..k], DeletedDirectoryName(DirectoryDigits(last))))
      else None
  }

  /** The drop callback and the startup scan agree: a collection directory
      `<dir>/<name>` is renamed to `<dir>/deleted-<digits>` by both. */
  lemma DroppedPathOfCollectionDirectory(dir: string, name: string)
    requires IsCollectionDirectoryName(name)
    ensures DroppedPath(JoinPath(dir, name)) == Some(JoinPath(dir, DeletedDirectoryName(DirectoryDigits(name))))
  {
    var path := JoinPath(dir, name);
    assert path[|dir|] == '/';
    forall j | |dir| < j < |path| ensures path[j] != '/' {
      assert path[j] == name[j - |dir| - 1];
      if j - |dir| - 1 < |CollectionPrefix| {
        assert name[j - |dir| - 1] == name[..|CollectionPrefix|][j - |dir| - 1];
        assert Lower(name[..|CollectionPrefix|])[j - |dir| - 1] == CollectionPrefix[j - |dir| - 1];
      } else {
        assert name[j - |dir| - 1] == name[|CollectionPrefix|..][j - |dir| - 1 - |CollectionPrefix|];
      }
    }
    LastSlashIsLast(path, |dir|);
    assert path[|dir| + 1..] == name;
    assert path[..|dir|] == dir;
  }

  lemma {:induction false} LastSlashIsLast(path: string, k: nat)
    requires k < |path| && path[k] == '/'
    requires forall j :: k < j < |path| ==> path[j] != '/'
    ensures LastSlash(path) == Some(k)
  {
    if k < |path| - 1 {
      LastSlashIsLast(path[..|path| - 1], k);
    }
  }

  /** Only paths whose last component is a collection directory name have a
      rename target, and the target keeps the parent and the digits. */
  lemma DroppedPathMatchesOnlyCollectionDirectories(path: string)
    requires DroppedPath(path).Some?
    ensures exists k :: 0 <= k < |path| && path[k] == '/' && IsCollectionDirectoryName(path[k + 1..])
              && DroppedPath(path).value == JoinPath(path[..k], DeletedDirectoryName(DirectoryDigits(path[k + 1..])))
  {
    var k := LastSlash(path).value;
    assert path[k] == '/' && IsCollectionDirectoryName(path[k + 1..]);
  }

  /** The disk changes DropCollectionCallback makes for a proxy path: a
      rename of `<dir>/collection-<digits>` to `<dir>/deleted-<digits>` when
      the rename succeeds, then the removal of the renamed directory when the
      database wipes dropped collections and the removal succeeds. */
  function DropDirectoryOps(path: Option<string>, removeOnDrop: bool, renameOk: bool, removeOk: bool): (ops: seq<FsOp>)
    ensures |ops| <= 2
    ensures ops != [] ==> path.Some? && DroppedPath(path.value).Some? && renameOk
                          && ops[0] == RenameDirectory(path.value, DroppedPath(path.value).value)
    ensures |ops| == 2 <==> (path.Some? && DroppedPath(path.value).Some? && renameOk && removeOnDrop && removeOk)
    ensures |ops| == 2 ==> ops[1] == RemoveDirectory(DroppedPath(path.value).value)
    ensures path.Some? && DroppedPath(path.value).Some? && renameOk ==> |ops| >= 1
  {
    if path.None? then []
    else match DroppedPath(path.value)
      case None => []
      case Some(target) =>
        if !renameOk then []
        else [RenameDirectory(path.value, target)] + (if removeOnDrop && removeOk then [RemoveDirectory(target)] else [])
  }
}
