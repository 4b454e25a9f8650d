/** The small part of GLM the graphics code relies on: `glm::vec3` with its
    componentwise arithmetic, over `real`, and the non-owning or shared
    pointers to GPU resources (models, shaders, fonts, textures), which are
    opaque handles; a null pointer is `None`. */
module Glm {
  import opened Wrappers

  datatype Vec3 = Vec3(x: real, y: real, z: real)

  /** `glm::vec3(s)`: every component `s`. */
  function Splat(s: real): (r: Vec3)
    ensures r.x == s && r.y == s && r.z == s
  {
    Vec3(s, s, s)
  }

  /** `v * s`. */
  function Scale(v: Vec3, s: real): (r: Vec3)
    ensures r.x == v.x * s && r.y == v.y * s && r.z == v.z * s
  {
    Vec3(v.x * s, v.y * s, v.z * s)
  }

  function Add(a: Vec3, b: Vec3): Vec3
  {
    Vec3(a.x + b.x, a.y + b.y, a.z + b.z)
  }

  function Sub(a: Vec3, b: Vec3): Vec3
  {
    Vec3(a.x - b.x, a.y - b.y, a.z - b.z)
  }

  /** `a * b`, componentwise. */
  function Mul(a: Vec3, b: Vec3): Vec3
  {
    Vec3(a.x * b.x, a.y * b.y, a.z * b.z)
  }

  /** `glm::mat4`, its sixteen entries in GLM's column-major order (entry
      `4 * c + r` is row `r` of column `c`). */
  datatype Mat4 = Mat4(m: seq<real>)

  /** `glm::mat4(1.0f)`. */
  function Identity(): (i: Mat4)
    ensures |i.m| == 16
    ensures forall k :: 0 <= k < 16 ==> i.m[k] == (if k % 5 == 0 then 1.0 else 0.0)
  {
    Mat4([1.0, 0.0, 0.0, 0.0, 0.0, 1.0, 0.0, 0.0, 0.0, 0.0, 1.0, 0.0, 0.0, 0.0, 0.0, 1.0])
  }

  /** `glm::translate(glm::mat4(1.0f), v)`: the identity with `v` in the
      first three rows of the last column. */
  function Translation(v: Vec3): (t: Mat4)
    ensures |t.m| == 16 && t.m[12] == v.x && t.m[13] == v.y && t.m[14] == v.z
    ensures forall k :: 0 <= k < 12 || k == 15 ==> t.m[k] == Identity().m[k]
  {
    Mat4([1.0, 0.0, 0.0, 0.0, 0.0, 1.0, 0.0, 0.0, 0.0, 0.0, 1.0, 0.0, v.x, v.y, v.z, 1.0])
  }

  /** A GPU resource or asset object. */
  datatype Handle = Handle(id: nat)

  /** A pointer to a resource, `nullptr` being `None`. */
  type Ptr = Option<Handle>
}
