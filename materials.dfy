/**
  * The materials a surface can carry and the result of scattering a ray off one. Each
  * material's `scatter` lives in its own module; scattering either absorbs the ray (`None`)
  * or yields an attenuation colour and the scattered ray.
  */
module Materials {
  import opened Vectors
  import opened Rays

  /** The material kinds the scene builders and the material loader create. */
  datatype Material =
    | Lambertian(color: Vec3)
    | Metal(color: Vec3, fuzz: real)
    | Dielectric(indexOfRefraction: real)

  /** The `(attenuation, scattered ray)` pair of a `scatter` that does not absorb. */
  datatype Scattered = Scattered(attenuation: Vec3, ray: Ray)
}
