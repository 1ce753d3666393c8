/**
  * The material table (`GetMaterials` and `GetTexture` in src/Exporter.cpp):
  * for every material of the scene, its name, its shininess after the
  * defaulting rule, and the paths of four textures with Windows separators
  * turned into `/`.
  *
  * Each Assimp lookup becomes an `Option` input: `None` when the lookup
  * does not return `AI_SUCCESS`, `Some(v)` with the value it fills in
  * otherwise. The colour lookups are not part of this model.
  */
module Materials {
  import opened Wrappers
  import opened VertexFormat

  /** What the Assimp lookups give for one material. */
  datatype MaterialLookups = MaterialLookups(
    name: Option<string>,
    shininess: Option<real>,
    diffuseTexture: Option<string>,
    normalsTexture: Option<string>,
    heightTexture: Option<string>,
    specularTexture: Option<string>)

  /** The exported material record, without its four colours. */
  datatype Material = Material(
    index: int,
    name: string,
    diffuseTexture: string,
    specularTexture: string,
    normalTexture: string,
    heightTexture: string,
    shininess: real)

  // ---------------------------------------------------------------------
  // Texture paths
  // ---------------------------------------------------------------------

  /** `std::replace(str.begin(), str.end(), '\\', '/')`, character by character. */
  function ReplaceBackslashes(s: string): (r: string)
    ensures |r| == |s|
    ensures forall i :: 0 <= i < |s| ==> r[i] == (if s[i] == '\\' then '/' else s[i])
  {
    if s == [] then []
    else [if s[0] == '\\' then '/' else s[0]] + ReplaceBackslashes(s[1..])
  }

  /**
    * `GetTexture`: the empty string when the lookup fails; otherwise the
    * path, of the same length, with every `\` made `/` and every other
    * character kept.
    */
  function GetTexture(lookup: Option<string>): (r: string)
    ensures lookup.None? ==> r == ""
    ensures lookup.Some? ==> |r| == |lookup.value|
    ensures lookup.Some? ==> forall i :: 0 <= i < |r| ==>
      && (lookup.value[i] == '\\' ==> r[i] == '/')
      && (lookup.value[i] != '\\' ==> r[i] == lookup.value[i])
  {
    match lookup
    case None => ""
    case Some(path) => ReplaceBackslashes(path)
  }

  /** No `\` is left in a texture path. */
  lemma NoBackslashLeft(s: string)
    ensures '\\' !in ReplaceBackslashes(s)
  {
  }

  /** A path without `\` is returned as it is. */
  lemma CleanPathUnchanged(s: string)
    requires '\\' !in s
    ensures ReplaceBackslashes(s) == s
  {
  }

  /** Rewriting the separators twice is rewriting them once. */
  lemma ReplaceIdempotent(s: string)
    ensures ReplaceBackslashes(ReplaceBackslashes(s)) == ReplaceBackslashes(s)
  {
    NoBackslashLeft(s);
    CleanPathUnchanged(ReplaceBackslashes(s));
  }

  /** The texture paths `GetTexture` returns hold no `\`, and giving one back to it changes nothing. */
  lemma GetTextureClean(lookup: Option<string>)
    ensures '\\' !in GetTexture(lookup)
    ensures GetTexture(Some(GetTexture(lookup))) == GetTexture(lookup)
  {
    match lookup
    case None =>
    case Some(path) =>
      NoBackslashLeft(path);
      ReplaceIdempotent(path);
  }

  // ---------------------------------------------------------------------
  // Shininess
  // ---------------------------------------------------------------------

  /** The shininess stored when the lookup fails or gives exactly 0: `40.0f * 4.0f`. */
  const DefaultShininess: real := 40.0 * 4.0

  /**
    * The shininess rule: a failed lookup counts as 0, a 0 becomes
    * `DefaultShininess`, and the value exported is a quarter of it. So the
    * result is never 0, and it is positive exactly when the lookup failed,
    * gave 0 or gave a positive value: a negative value stays negative.
    */
  function ShininessOf(lookup: Option<real>): (r: real)
    ensures lookup.None? || lookup.value == 0.0 ==> r == 40.0
    ensures lookup.Some? && lookup.value != 0.0 ==> r * 4.0 == lookup.value
    ensures r != 0.0
    ensures 0.0 < r <==> lookup.None? || 0.0 <= lookup.value
  {
    var stored := if lookup.Some? then lookup.value else 0.0;
    var defaulted := if stored == 0.0 then DefaultShininess else stored;
    defaulted / 4.0
  }

  // ---------------------------------------------------------------------
  // The material table
  // ---------------------------------------------------------------------

  /**
    * `exportMaterial.index = i`: the `unsigned int` loop index stored into
    * an `int`, which keeps the value below 2^31 and wraps it above.
    */
  function IndexOf(i: nat): (r: int)
    requires i < Two32
    ensures -0x8000_0000 <= r < 0x8000_0000
    ensures (r - i) % Two32 == 0
  {
    if i < 0x8000_0000 then i else i - Two32
  }

  /** Material `i` as `GetMaterials` makes it from its lookups. */
  function MaterialOf(i: nat, m: MaterialLookups): Material
    requires i < Two32
  {
    Material(
      IndexOf(i),
      if m.name.Some? then m.name.value else "",
      GetTexture(m.diffuseTexture),
      GetTexture(m.specularTexture),
      GetTexture(m.normalsTexture),
      GetTexture(m.heightTexture),
      ShininessOf(m.shininess))
  }

  /**
    * `GetMaterials`: one material per scene material, in order, pushed onto
    * the result one at a time.
    */
  method GetMaterials(mats: seq<MaterialLookups>) returns (materials: seq<Material>)
    requires |mats| < Two32
    ensures |materials| == |mats|
    ensures forall i :: 0 <= i < |mats| ==> materials[i] == MaterialOf(i, mats[i])
  {
    materials := [];
    var i := 0;
    while i < |mats|
      invariant 0 <= i <= |mats|
      invariant |materials| == i
      invariant forall k :: 0 <= k < i ==> materials[k] == MaterialOf(k, mats[k])
    {
      var m := mats[i];
      var name := if m.name.Some? then m.name.value else "";
      var shininess := if m.shininess.Some? then m.shininess.value else 0.0;
      if shininess == 0.0 {
        shininess := DefaultShininess;
      }
      var exportMaterial := Material(
        IndexOf(i), name,
        GetTexture(m.diffuseTexture), GetTexture(m.specularTexture),
        GetTexture(m.normalsTexture), GetTexture(m.heightTexture),
        shininess / 4.0);
      materials := materials + [exportMaterial];
      i := i + 1;
    }
  }

  /**
    * What the table promises: material `i` carries index `i` (for fewer than
    * 2^31 materials), the name found or the empty string, texture paths
    * without `\`, and a shininess that is never 0.
    */
  lemma MaterialProperties(i: nat, m: MaterialLookups)
    requires i < Two32
    ensures var mat := MaterialOf(i, m);
      && (i < 0x8000_0000 ==> mat.index == i)
      && (m.name.None? ==> mat.name == "")
      && '\\' !in mat.diffuseTexture && '\\' !in mat.specularTexture
      && '\\' !in mat.normalTexture && '\\' !in mat.heightTexture
      && mat.shininess != 0.0
  {
    GetTextureClean(m.diffuseTexture);
    GetTextureClean(m.specularTexture);
    GetTextureClean(m.normalsTexture);
    GetTextureClean(m.heightTexture);
  }
}
