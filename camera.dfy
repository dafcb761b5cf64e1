/** The fly-through camera of camera.h: fields updated in place by keyboard, mouse and
    scroll input. The trigonometry and vector lengths of updateCameraVectors are not computed
    by the model; they are supplied once, as the `lib` the camera is built with. */
module Cameras {
  import Vector3
  import Matrix44
  import TransformUtils

  /** Camera_Movement. */
  datatype Movement = Forward | Backward | Left | Right

  /** sin, cos and the reciprocal vector length used by updateCameraVectors. */
  datatype MathLib = MathLib(sin: real -> real, cos: real -> real, invLength: Vector3.Vec3 -> real)

  const DegToRad: real := 3.14159265358979 / 180.0
  const DefaultYaw: real := -90.0
  const DefaultPitch: real := 0.0
  const DefaultSpeed: real := 1.0
  const DefaultSensitivity: real := 0.1
  const DefaultZoom: real := 45.0

  /** The unnormalised viewing direction for yaw and pitch in degrees. */
  function Direction(yaw: real, pitch: real, lib: MathLib): (d: Vector3.Vec3)
    ensures d.y == lib.sin(pitch * DegToRad)
    ensures d.x == lib.cos(yaw * DegToRad) * lib.cos(pitch * DegToRad)
    ensures d.z == lib.sin(yaw * DegToRad) * lib.cos(pitch * DegToRad)
  {
    var p := pitch * DegToRad;
    var y := yaw * DegToRad;
    Vector3.Vec3(lib.cos(y) * lib.cos(p), lib.sin(p), lib.sin(y) * lib.cos(p))
  }

  /** updateCameraVectors: (Front, Right, Up) from Yaw, Pitch and WorldUp. With the default
      world up (0, 1, 0), Right stays horizontal whatever the yaw and pitch. */
  function CameraVectors(yaw: real, pitch: real, worldUp: Vector3.Vec3, lib: MathLib)
    : (v: (Vector3.Vec3, Vector3.Vec3, Vector3.Vec3))
    ensures worldUp == Vector3.Vec3(0.0, 1.0, 0.0) ==> v.1.y == 0.0
  {
    var front := Vector3.Normalize(Direction(yaw, pitch, lib), lib.invLength);
    var right := Vector3.Normalize(Vector3.Cross(front, worldUp), lib.invLength);
    var up := Vector3.Normalize(Vector3.Cross(right, front), lib.invLength);
    (front, right, up)
  }

  /** Whatever the lengths, Right is orthogonal to Front, and Up to both. */
  lemma {:induction false} CameraVectorsOrthogonal(yaw: real, pitch: real, worldUp: Vector3.Vec3, lib: MathLib)
    ensures var (front, right, up) := CameraVectors(yaw, pitch, worldUp, lib);
      Vector3.Dot(right, front) == 0.0 && Vector3.Dot(up, front) == 0.0 && Vector3.Dot(up, right) == 0.0
  {
    var front := Vector3.Normalize(Direction(yaw, pitch, lib), lib.invLength);
    var cr := Vector3.Cross(front, worldUp);
    var right := Vector3.Normalize(cr, lib.invLength);
    var cu := Vector3.Cross(right, front);
    Vector3.CrossOrthogonal(front, worldUp);
    Vector3.DotScale(cr, front, lib.invLength(cr), 1.0);
    assert Vector3.Scale(front, 1.0) == front;
    Vector3.CrossOrthogonal(right, front);
    Vector3.DotScale(cu, front, lib.invLength(cu), 1.0);
    Vector3.DotScale(cu, right, lib.invLength(cu), 1.0);
    assert Vector3.Scale(right, 1.0) == right;
  }

  /** Position, Front and Right: the part of the camera ProcessKeyboard changes. */
  datatype Pose = Pose(position: Vector3.Vec3, front: Vector3.Vec3, right: Vector3.Vec3)

  /** ProcessKeyboard with velocity v. `Front * velocity` scales Front in place before it is
      added, so the camera keeps the scaled vector (likewise Right for strafing). */
  function Move(p: Pose, direction: Movement, v: real): (r: Pose)
    ensures direction == Forward ==>
      r.front == Vector3.Scale(p.front, v) && r.right == p.right &&
      r.position == Vector3.Add(p.position, Vector3.Scale(p.front, v))
    ensures direction == Backward ==>
      r.front == Vector3.Scale(p.front, v) && r.right == p.right &&
      r.position == Vector3.Sub(p.position, Vector3.Scale(p.front, v))
    ensures direction == Left ==>
      r.right == Vector3.Scale(p.right, v) && r.front == p.front &&
      r.position == Vector3.Sub(p.position, Vector3.Scale(p.right, v))
    ensures direction == Right ==>
      r.right == Vector3.Scale(p.right, v) && r.front == p.front &&
      r.position == Vector3.Add(p.position, Vector3.Scale(p.right, v))
  {
    match direction
    case Forward =>
      var f := Vector3.Scale(p.front, v);
      Pose(Vector3.Add(p.position, f), f, p.right)
    case Backward =>
      var f := Vector3.Scale(p.front, v);
      Pose(Vector3.Sub(p.position, f), f, p.right)
    case Left =>
      var r := Vector3.Scale(p.right, v);
      Pose(Vector3.Sub(p.position, r), p.front, r)
    case Right =>
      var r := Vector3.Scale(p.right, v);
      Pose(Vector3.Add(p.position, r), p.front, r)
  }

  /** Because Front is scaled in place, a forward step followed by a backward step with the
      same velocity v leaves the camera displaced by Front·(v - v²): it returns to where it
      started only when v is 0 or 1 (or Front is zero). */
  lemma {:induction false} ForwardBackwardDrift(p: Pose, v: real)
    ensures Move(Move(p, Forward, v), Backward, v).position ==
      Vector3.Add(p.position, Vector3.Scale(p.front, v - v * v))
    ensures Move(Move(p, Forward, v), Backward, v).front == Vector3.Scale(p.front, v * v)
  {
    var q := Move(p, Forward, v);
    var f := Vector3.Scale(p.front, v);
    Vector3.ScaleTwice(p.front, v, v);
    assert Move(q, Backward, v).position == Vector3.Sub(Vector3.Add(p.position, f), Vector3.Scale(f, v));
    var r := Move(q, Backward, v).position;
    var e := Vector3.Add(p.position, Vector3.Scale(p.front, v - v * v));
    assert r.x == e.x by { assert p.front.x * v - p.front.x * v * v == p.front.x * (v - v * v); }
    assert r.y == e.y by { assert p.front.y * v - p.front.y * v * v == p.front.y * (v - v * v); }
    assert r.z == e.z by { assert p.front.z * v - p.front.z * v * v == p.front.z * (v - v * v); }
  }

  /** The Pitch limit applied when constrainPitch is set. */
  function ClampPitch(pitch: real): (r: real)
    ensures -89.0 <= r <= 89.0
    ensures -89.0 <= pitch <= 89.0 ==> r == pitch
    ensures pitch > 89.0 ==> r == 89.0
    ensures pitch < -89.0 ==> r == -89.0
  {
    var p := if pitch > 89.0 then 89.0 else pitch;
    if p < -89.0 then -89.0 else p
  }

  /** ProcessMouseScroll on Zoom: the offset is applied only while Zoom is in [1, 45],
      and the result is clamped to [1, 45]. */
  function ScrollZoom(zoom: real, yoffset: real): (r: real)
    ensures 1.0 <= r <= 45.0
    ensures 1.0 <= zoom <= 45.0 && 1.0 <= zoom - yoffset <= 45.0 ==> r == zoom - yoffset
    ensures 1.0 <= zoom <= 45.0 && zoom - yoffset < 1.0 ==> r == 1.0
    ensures 1.0 <= zoom <= 45.0 && zoom - yoffset > 45.0 ==> r == 45.0
    ensures zoom < 1.0 ==> r == 1.0
    ensures zoom > 45.0 ==> r == 45.0
  {
    var z := if zoom >= 1.0 && zoom <= 45.0 then zoom - yoffset else zoom;
    var z := if z <= 1.0 then 1.0 else z;
    if z >= 45.0 then 45.0 else z
  }

  /** Scrolling by zero from an in-range zoom changes nothing, and scrolling by a and then b
      from well inside the range is scrolling by a + b. */
  lemma ScrollComposes(zoom: real, a: real, b: real)
    requires 1.0 <= zoom - a <= 45.0 && 1.0 <= zoom - a - b <= 45.0 && 1.0 <= zoom <= 45.0
    ensures ScrollZoom(ScrollZoom(zoom, a), b) == ScrollZoom(zoom, a + b)
    ensures ScrollZoom(zoom, 0.0) == zoom
  {
  }

  class Camera {
    var Position: Vector3.Vec3
    var Front: Vector3.Vec3
    var Up: Vector3.Vec3
    var Right: Vector3.Vec3
    var WorldUp: Vector3.Vec3
    var Yaw: real
    var Pitch: real
    var MovementSpeed: real
    var MouseSensitivity: real
    var Zoom: real
    const lib: MathLib

    /** The fields updateCameraVectors maintains. */
    ghost predicate Oriented()
      reads this
    {
      (Front, Right, Up) == CameraVectors(Yaw, Pitch, WorldUp, lib)
    }

    /** Constructor with vectors, with the source's default arguments. Front is first set to
        (0, 0, -1) and then recomputed by updateCameraVectors, which does not read it. */
    constructor (lib: MathLib, position: Vector3.Vec3 := Vector3.Vec3(0.0, 0.0, 0.0),
                 up: Vector3.Vec3 := Vector3.Vec3(0.0, 1.0, 0.0),
                 yaw: real := DefaultYaw, pitch: real := DefaultPitch)
      ensures Position == position && WorldUp == up && Yaw == yaw && Pitch == pitch
      ensures MovementSpeed == 1.0 && MouseSensitivity == 0.1 && Zoom == 45.0
      ensures this.lib == lib && Oriented()
    {
      this.lib := lib;
      Front := Vector3.Vec3(0.0, 0.0, -1.0);
      MovementSpeed := DefaultSpeed;
      MouseSensitivity := DefaultSensitivity;
      Zoom := DefaultZoom;
      Position := position;
      WorldUp := up;
      Yaw := yaw;
      Pitch := pitch;
      new;
      UpdateCameraVectors();
    }

    /** Constructor with scalar values. */
    constructor FromScalars(lib: MathLib, posX: real, posY: real, posZ: real,
                            upX: real, upY: real, upZ: real, yaw: real, pitch: real)
      ensures Position == Vector3.Vec3(posX, posY, posZ) && WorldUp == Vector3.Vec3(upX, upY, upZ)
      ensures Yaw == yaw && Pitch == pitch
      ensures MovementSpeed == 1.0 && MouseSensitivity == 0.1 && Zoom == 45.0
      ensures this.lib == lib && Oriented()
    {
      this.lib := lib;
      Front := Vector3.Vec3(0.0, 0.0, -1.0);
      MovementSpeed := DefaultSpeed;
      MouseSensitivity := DefaultSensitivity;
      Zoom := DefaultZoom;
      Position := Vector3.Vec3(posX, posY, posZ);
      WorldUp := Vector3.Vec3(upX, upY, upZ);
      Yaw := yaw;
      Pitch := pitch;
      new;
      UpdateCameraVectors();
    }

    /** GetViewMatrix: lookat(Position, Position + Front, Up). Its z row is the normalised
        reverse of Front and its translation column is -(Position + Front). */
    function GetViewMatrix(garbage: Matrix44.Mat44): (r: Matrix44.Mat44)
      reads this
      ensures TransformUtils.Row3(r, 2) == Vector3.Normalize(Vector3.Neg(Front), lib.invLength)
      ensures r[0][3] == -(Position.x + Front.x) && r[1][3] == -(Position.y + Front.y)
      ensures r[2][3] == -(Position.z + Front.z)
    {
      var center := Vector3.Add(Position, Front);
      TransformUtils.LookAtLayout(Position, center, Up, lib.invLength, garbage);
      assert Vector3.Sub(Position, center) == Vector3.Neg(Front);
      TransformUtils.LookAt(Position, center, Up, lib.invLength, garbage)
    }

    /** ProcessKeyboard: moves by velocity = MovementSpeed·deltaTime along Front or Right,
        leaving that vector scaled by the velocity. */
    method ProcessKeyboard(direction: Movement, deltaTime: real)
      modifies this
      ensures Pose(Position, Front, Right) ==
        Move(Pose(old(Position), old(Front), old(Right)), direction, old(MovementSpeed) * deltaTime)
      ensures Up == old(Up) && WorldUp == old(WorldUp) && Yaw == old(Yaw) && Pitch == old(Pitch)
      ensures MovementSpeed == old(MovementSpeed) && MouseSensitivity == old(MouseSensitivity)
      ensures Zoom == old(Zoom)
    {
      var velocity := MovementSpeed * deltaTime;
      if direction == Forward {
        Front := Vector3.Scale(Front, velocity);
        Position := Vector3.Add(Position, Front);
      }
      if direction == Backward {
        Front := Vector3.Scale(Front, velocity);
        Position := Vector3.Sub(Position, Front);
      }
      if direction == Movement.Left {
        Right := Vector3.Scale(Right, velocity);
        Position := Vector3.Sub(Position, Right);
      }
      if direction == Movement.Right {
        Right := Vector3.Scale(Right, velocity);
        Position := Vector3.Add(Position, Right);
      }
    }

    /** ProcessMouseMovement: offsets are scaled by MouseSensitivity; Yaw decreases by the x
        offset, Pitch increases by the y offset and is clamped to [-89, 89] when asked. */
    method ProcessMouseMovement(xoffset: real, yoffset: real, constrainPitch: bool := true)
      modifies this
      ensures Yaw == old(Yaw) - xoffset * old(MouseSensitivity)
      ensures var p := old(Pitch) + yoffset * old(MouseSensitivity);
        Pitch == if constrainPitch then ClampPitch(p) else p
      ensures constrainPitch ==> -89.0 <= Pitch <= 89.0
      ensures Oriented()
      ensures Position == old(Position) && WorldUp == old(WorldUp) && Zoom == old(Zoom)
      ensures MovementSpeed == old(MovementSpeed) && MouseSensitivity == old(MouseSensitivity)
    {
      var dx := xoffset * MouseSensitivity;
      var dy := yoffset * MouseSensitivity;
      Yaw := Yaw - dx;
      Pitch := Pitch + dy;
      if constrainPitch {
        if Pitch > 89.0 {
          Pitch := 89.0;
        }
        if Pitch < -89.0 {
          Pitch := -89.0;
        }
      }
      UpdateCameraVectors();
    }

    /** ProcessMouseScroll. */
    method ProcessMouseScroll(yoffset: real)
      modifies this
      ensures Zoom == ScrollZoom(old(Zoom), yoffset)
      ensures 1.0 <= Zoom <= 45.0
      ensures Position == old(Position) && Front == old(Front) && Right == old(Right) && Up == old(Up)
      ensures WorldUp == old(WorldUp) && Yaw == old(Yaw) && Pitch == old(Pitch)
      ensures MovementSpeed == old(MovementSpeed) && MouseSensitivity == old(MouseSensitivity)
    {
      if Zoom >= 1.0 && Zoom <= 45.0 {
        Zoom := Zoom - yoffset;
      }
      if Zoom <= 1.0 {
        Zoom := 1.0;
      }
      if Zoom >= 45.0 {
        Zoom := 45.0;
      }
    }

    /** updateCameraVectors (private in the source). */
    method UpdateCameraVectors()
      modifies this
      ensures (Front, Right, Up) == CameraVectors(Yaw, Pitch, WorldUp, lib)
      ensures Position == old(Position) && WorldUp == old(WorldUp) && Yaw == old(Yaw) && Pitch == old(Pitch)
      ensures MovementSpeed == old(MovementSpeed) && MouseSensitivity == old(MouseSensitivity)
      ensures Zoom == old(Zoom)
    {
      var front := Direction(Yaw, Pitch, lib);
      Front := Vector3.Normalize(front, lib.invLength);
      Right := Vector3.Normalize(Vector3.Cross(Front, WorldUp), lib.invLength);
      Up := Vector3.Normalize(Vector3.Cross(Right, Front), lib.invLength);
    }
  }
}
