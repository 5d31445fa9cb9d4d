/**
  * The material table of `lib-raytracing/src/scenes/mtlloader.rs`: each Wavefront MTL
  * material the OBJ parser reports becomes a material of the renderer, or none, by a fixed
  * order of tests on the fields it carries.
  */
module MtlLoader {
  import opened Wrappers
  import opened Vectors
  import opened Materials

  /**
    * The fields of `tobj::Material` the table reads, each optional: the ambient (`Ka`) and
    * diffuse (`Kd`) colours, the shininess (`Ns`) and the optical density (`Ni`). The `f32`
    * values widen exactly to `f64`, so they are reals here.
    */
  datatype MtlMaterial = MtlMaterial(ambient: Option<Vec3>, diffuse: Option<Vec3>,
                                     shininess: Option<real>, opticalDensity: Option<real>)

  /**
    * `extract_material`: an optical density makes a dielectric of that index; otherwise an
    * ambient and a diffuse colour make a Lambertian surface of their componentwise product;
    * otherwise an ambient colour and a shininess make a metal of that colour and fuzz;
    * otherwise there is no material.
    */
  function ExtractMaterial(m: MtlMaterial): (r: Option<Material>)
  {
    if m.opticalDensity.Some? then Some(Dielectric(m.opticalDensity.value))
    else if m.ambient.Some? && m.diffuse.Some? then Some(Lambertian(Mul(m.diffuse.value, m.ambient.value)))
    else if m.ambient.Some? && m.shininess.Some? then Some(Metal(m.ambient.value, m.shininess.value))
    else None
  }

  /**
    * Which kind of material comes out, field by field: a dielectric exactly when there is an
    * optical density; a Lambertian surface exactly when there is none but both colours are
    * present; a metal exactly when, in addition, the diffuse colour is absent and a shininess
    * is present; nothing exactly when no test applies.
    */
  lemma ExtractedKind(m: MtlMaterial)
    ensures (ExtractMaterial(m).Some? && ExtractMaterial(m).value.Dielectric?) <==> m.opticalDensity.Some?
    ensures (ExtractMaterial(m).Some? && ExtractMaterial(m).value.Lambertian?) <==>
              m.opticalDensity.None? && m.ambient.Some? && m.diffuse.Some?
    ensures (ExtractMaterial(m).Some? && ExtractMaterial(m).value.Metal?) <==>
              m.opticalDensity.None? && m.ambient.Some? && m.diffuse.None? && m.shininess.Some?
    ensures ExtractMaterial(m).None? <==>
              m.opticalDensity.None? && (m.ambient.None? || (m.diffuse.None? && m.shininess.None?))
  {
  }

  /**
    * The values carried over: the optical density as the index of refraction, whatever else
    * is present; the product of diffuse and ambient channel by channel; the ambient colour
    * and the shininess unscaled as the metal's colour and fuzz.
    */
  lemma ExtractedValues(m: MtlMaterial)
    ensures m.opticalDensity.Some? ==> ExtractMaterial(m) == Some(Dielectric(m.opticalDensity.value))
    ensures ExtractMaterial(m).Some? && ExtractMaterial(m).value.Lambertian? ==>
              var c := ExtractMaterial(m).value.color;
              c.x == m.diffuse.value.x * m.ambient.value.x && c.y == m.diffuse.value.y * m.ambient.value.y &&
              c.z == m.diffuse.value.z * m.ambient.value.z
    ensures ExtractMaterial(m).Some? && ExtractMaterial(m).value.Metal? ==>
              ExtractMaterial(m).value.color == m.ambient.value && ExtractMaterial(m).value.fuzz == m.shininess.value
  {
  }

  /** A diffuse colour without an ambient one gives no material, whatever the shininess. */
  lemma DiffuseAloneIsNothing(diffuse: Vec3, shininess: Option<real>)
    ensures ExtractMaterial(MtlMaterial(None, Some(diffuse), shininess, None)) == None
  {
  }

  /** `load_materials`: one entry per MTL material, in the same order. */
  function LoadMaterials(materials: seq<MtlMaterial>): (r: seq<Option<Material>>)
    ensures |r| == |materials|
    ensures forall k :: 0 <= k < |r| ==> r[k] == ExtractMaterial(materials[k])
  {
    seq(|materials|, k requires 0 <= k < |materials| => ExtractMaterial(materials[k]))
  }
}
