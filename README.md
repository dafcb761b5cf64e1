# Eleanor software renderer, modelled in Dafny

Eleanor is a small C++ software renderer. This project models its core and proves properties of the model:

- the TGA image buffer: `get` and `set`, the two in-place flips, the run-length decoder, and the header dispatch of `read_tga_file`;
- the rasteriser (`SoftRenderer`): pixel `set`, `clear`, Bresenham `line`, `barycentric`, and the z-buffered `triangle`;
- the `FrameBuffer`, plus the free `line` and the face/edge loops of `wireframe`;
- the vector and matrix value types, and the matrix builders of `TransformUtils.h`;
- the camera's input handling;
- the vertex and fragment stages of the two shaders, and the mesh accessors of `ModelLoader.h`.

Modules follow the headers one for one:

| file | module | models |
|---|---|---|
| `vector2.dfy` | `Vector2` | `math/vector2.h` |
| `vector3.dfy` | `Vector3` | `math/vector3.h` |
| `vector4.dfy` | `Vector4` | `math/vector4.h` |
| `square.dfy` | `Square` | the n×n product and in-place transpose loops shared by `matrix33` and `matrix44` |
| `matrix33.dfy` | `Matrix33` | `math/matrix33.h` |
| `matrix44.dfy` | `Matrix44` | `math/matrix44.h` |
| `transform_utils.dfy` | `TransformUtils` | `TransformUtils.h` |
| `camera.dfy` | `Cameras` | `camera.h` |
| `tga_layout.dfy` | `TgaLayout` | pixel offsets of a TGA buffer, and the flips as rearrangements of its bytes |
| `tga_rle.dfy` | `TgaRle` | the run-length decoder as a function on the input bytes |
| `tga.dfy` | `Tga` | `TGAColor`, the `TGAImage` class and `read_tga_file` |
| `framebuffer.dfy` | `FrameBuffers` | `framebuffer.h` |
| `lines.dfy` | `Lines` | the Bresenham point sequence, shared by both `line` functions |
| `softrenderer.dfy` | `Render` | `softrenderer.h` |
| `wireframe.dfy` | `Wireframe` | `line` and `wireframe` in `main.cpp` |
| `model_loader.dfy` | `ModelLoader` | `ModelLoader.h` |
| `shaders.dfy` | `Shaders` | `shaders.h`, with `Transforms` from `transform.h` |

Conventions:

- `float` is modelled as `real`. No claim is made about IEEE rounding.
- Bytes are the `byte` newtype in the TGA modules and `Uint8` in the framebuffers.
- Objects whose fields the source updates become classes over arrays: `TGAImage`, `FrameBuffer`, `SoftRenderer`, `Camera`, and the two shaders. Fields that only a constructor assigns are `const` (the `FrameBuffer`'s array, width and height); the arrays they name are still updated in place. Their methods are proved against specification functions such as `TgaLayout.FlipV`, `TgaRle.Load`, `FrameBuffers.Paint`, `Render.ScanRows` and `Lines.Points`.
- The value types become datatypes and functions.
- `vector3::operator*(float)` and `operator/` change their receiver. The model writes them as functions returning the receiver's new value, and every call site stores that value back into the receiver, as the source does. At `shaders.h:95` that means N keeps its scaled value for the bitangent and the TBN matrix (`Shaders.FrameAsWritten`).
- `matrix44()` leaves its entries uninitialised. Every builder that starts from it takes a `garbage` matrix standing for that memory, and the contracts say which entries still come from it.
- The following are parameters of the model rather than computed values:
  - square roots (the reciprocal length used by `normalize`);
  - `sin` and `cos`;
  - the methods the shaders call that exist nowhere in the source.

## Model

| member | source | states |
|---|---|---|
| Vector2.Index | Eleanor/math/vector2.h:31-34 | index 0 yields x, and every other index, negative ones included, yields y |
| Vector2.Assign | Eleanor/math/vector2.h:31-34 | a write through the returned reference sets exactly the component that index selects, and keeps the other one |
| Vector2.Sub | Eleanor/math/vector2.h:27-29 | each component of the result is the difference of the operands' components |
| Vector2.IndexRebuilds | Eleanor/math/vector2.h:31-34 | indexing at 0 and 1 recovers the whole vector |
| Vector2.SubInverse | Eleanor/math/vector2.h:27-29 | a - (a - b) == b, and a - b is zero exactly when a == b |
| Vector3.Index | Eleanor/math/vector3.h:80-90 | 0 maps to x, 1 to y, and every other index, negative ones included, to z |
| Vector3.Add | Eleanor/math/vector3.h:72-74 | component-wise sum, operands untouched |
| Vector3.Sub | Eleanor/math/vector3.h:76-78 | component-wise difference, operands untouched |
| Vector3.Neg | Eleanor/math/vector3.h:46-48 | every component negated |
| Vector3.Scale | Eleanor/math/vector3.h:32-37 | the receiver after `v * d` has every component multiplied by d |
| Vector3.Div | Eleanor/math/vector3.h:39-44 | the receiver after `v / d` has every component divided by d |
| Vector3.Reflect | Eleanor/math/vector3.h:113-115 | the caller's normal is left scaled by 2(in·n), and the result is in minus that scaled normal |
| Vector3.Cross | Eleanor/math/vector3.h:103-107 | a vector crossed with itself or with the zero vector gives zero |
| Vector3.Normalize | Eleanor/math/vector3.h:63-70 | every component is multiplied by the same reciprocal length, and in the model the zero vector stays zero (the source gives NaN there; see Left out) |
| Vector3.DivUndoesScale | Eleanor/math/vector3.h:32-44 | dividing by d after scaling by d restores the vector |
| Vector3.ScaleTwice | Eleanor/math/vector3.h:32-37 | two in-place scalings of one receiver compose into one scaling by the product |
| Vector3.DotSymmetric | Eleanor/math/vector3.h:99-111 | `operator*(vector3)` and `vector3Dot` are symmetric and equal the indexed sum of products |
| Vector3.CrossOrthogonal | Eleanor/math/vector3.h:103-107 | the cross product is orthogonal to both factors, antisymmetric, and zero on equal factors |
| Vector3.DotScale | Eleanor/math/vector3.h:99-101 | scalar factors come out of the dot product |
| Vector3.DotSelf | Eleanor/math/vector3.h:99-111 | a vector's dot product with itself is never negative, and the zero vector is orthogonal to every vector |
| Vector3.DotSub | Eleanor/math/vector3.h:99-111 | the dot product distributes over the difference: (a - b)·n = a·n - b·n |
| Vector3.ReflectFlipsNormalComponent | Eleanor/math/vector3.h:113-115 | against a unit normal, reflection negates the component along the normal |
| Vector4.Index | Eleanor/math/vector4.h:60-65 | 0, 1 and 2 map to x, y and z, and every other index maps to w |
| Vector4.FromVec3 | Eleanor/math/vector4.h:42-44 | `vector4(v3, w)` copies v3's three components and then w |
| Vector4.Xyz | Eleanor/shaders.h:44 | the first three components, as `vector3(nn.x, nn.y, nn.z)` reads them |
| Vector4.Div | Eleanor/math/vector4.h:28-34 | all four components of the receiver are divided in place |
| Vector4.FromVec3RoundTrip | Eleanor/math/vector4.h:42-44 | dropping w after adding it gives the vector3 back |
| Vector4.DivRoundTrip | Eleanor/math/vector4.h:28-34 | multiplying each component back by d undoes the in-place division |
| Square.Product | Eleanor/math/matrix33.h:53-65 | entry (i, j) of the product is the full row-by-column sum |
| Square.Multiply | Eleanor/math/matrix44.h:41-53 | the triple loop into an uninitialised result assigns every entry, so it yields the product whatever the memory held |
| Square.Transposed | Eleanor/math/matrix33.h:76-83 | entry (i, j) of the transpose is entry (j, i) |
| Square.Transpose | Eleanor/math/matrix33.h:76-83 | swapping m[i][j] with m[j][i] for i < j only, diagonal untouched, transposes the matrix |
| Square.TransposeInvolution | Eleanor/math/matrix33.h:76-83 | transposing twice restores the matrix |
| Matrix33.Zeros | Eleanor/math/matrix33.h:29-31 | the default constructor zeroes all nine entries |
| Matrix33.FromMatrix44 | Eleanor/math/matrix33.h:33-39 | the nested copy loop takes exactly the upper-left 3×3 block |
| Matrix33.Identity | Eleanor/math/matrix33.h:67-74 | 1 on the diagonal and 0 elsewhere |
| Matrix33.MulVec | Eleanor/math/matrix33.h:45-51 | component i is row i dotted with the vector |
| Matrix33.ProductEntries | Eleanor/math/matrix33.h:53-65 | entry (i, j) of the product is Σk a[i][k]·b[k][j] |
| Matrix33.IdentityMulVec | Eleanor/math/matrix33.h:45-74 | the identity fixes every vector |
| Matrix33.IdentityNeutral | Eleanor/math/matrix33.h:53-74 | I·A == A·I == A |
| Matrix33.TransposeSymmetric | Eleanor/math/matrix33.h:76-83 | a symmetric matrix, such as the identity, is its own transpose |
| Matrix44.Entry | Eleanor/math/matrix44.h:28-30 | `m(x, y)` denotes entry m[x][y] |
| Matrix44.Identity | Eleanor/math/matrix44.h:55-63 | the four diagonal entries are 1, and every off-diagonal entry is whatever the uninitialised memory held |
| Matrix44.MulVec | Eleanor/math/matrix44.h:32-39 | component i is row i dotted with the vector4 |
| Matrix44.Mul | Eleanor/math/matrix44.h:41-53 | all 16 entries of the product are Σk a[i][k]·b[k][j] |
| Matrix44.ProductEntries | Eleanor/math/matrix44.h:41-53 | the generic loop product at size 4 has those entries |
| Matrix44.MulLoop | Eleanor/math/matrix44.h:41-53 | the triple loop into uninitialised memory computes Mul, whatever the memory held |
| Matrix44.IdentityNeutral | Eleanor/math/matrix44.h:41-63 | with a genuinely zero-initialised identity, A·I == I·A == A |
| Matrix44.IdentityMulVec | Eleanor/math/matrix44.h:32-63 | that identity fixes every vector4 |
| Matrix44.MulVecAssociative | Eleanor/math/matrix44.h:32-53 | (A·B)·v == A·(B·v), the composition used for viewport·MVP·pos |
| TransformUtils.Viewport | Eleanor/TransformUtils.h:15-27 | the scale and offset send NDC -1 and 1 to x and x+w, to y and y+h, and to depth 0 and 255 |
| TransformUtils.ViewportEntries | Eleanor/TransformUtils.h:14-27 | the diagonal is (w/2, h/2, 127.5, 1) and column 3 is (x+w/2, y+h/2, 127.5); the other off-diagonal entries come from `identity()`'s memory |
| TransformUtils.ViewportMaps | Eleanor/TransformUtils.h:14-27 | with zeroed memory the viewport sends NDC (nx, ny, nz, 1) to (x + w(nx+1)/2, y + h(ny+1)/2, 255(nz+1)/2, 1) |
| TransformUtils.ViewportRange | Eleanor/TransformUtils.h:14-27 | NDC x in [-1, 1] lands in [x, x+w], and NDC z in [-1, 1] lands in [0, 255] |
| TransformUtils.LookAt | Eleanor/TransformUtils.h:29-47 | the last column holds -center, as written, for each of the three rows |
| TransformUtils.LookAtLayout | Eleanor/TransformUtils.h:38-44 | rows 0 to 2 hold the basis x, y, z, column 3 holds -center (not -basis·eye), and row 3 keeps `identity()`'s memory |
| TransformUtils.LookAtOrthogonal | Eleanor/TransformUtils.h:29-36 | the three lookat basis vectors are pairwise orthogonal, whatever the normalising lengths |
| TransformUtils.Projection | Eleanor/TransformUtils.h:49-53 | `identity()` with entry (3,2) set to coeff, every other entry unchanged |
| TransformUtils.ProjectionPerspective | Eleanor/TransformUtils.h:49-53 | with zeroed memory, projection keeps x, y, z and sets w to 1 + coeff·z |
| TransformUtils.ScaleMatrix | Eleanor/TransformUtils.h:55-62 | the diagonal is (x, y, z, 1), and every other entry is unset memory |
| TransformUtils.TranslateMatrix | Eleanor/TransformUtils.h:64-70 | `identity()` with column 3 set to the offset |
| TransformUtils.TranslateMoves | Eleanor/TransformUtils.h:64-70 | with zeroed memory, (p, 1) goes to (p + t, 1) |
| TransformUtils.TranslateTwice | Eleanor/TransformUtils.h:64-70 | two translations compose into one by the summed offset |
| TransformUtils.RotateMatrix | Eleanor/TransformUtils.h:72-100 | axis (0,0,0) returns `identity()`; any other axis gives the quaternion block built from the half-angle and the normalised axis |
| TransformUtils.RotationBorderUnset | Eleanor/TransformUtils.h:86-97 | only the 3×3 block and (3,3) = 1 are assigned: the off-diagonal entries of row 3 and column 3 stay unset |
| TransformUtils.RotationFixesAxis | Eleanor/TransformUtils.h:86-97 | the rotation block maps its own axis to itself |
| Cameras.Direction | Eleanor/camera.h:103-106 | front = (cos yaw·cos pitch, sin pitch, sin yaw·cos pitch), angles converted with DEG2RAD |
| Cameras.CameraVectors | Eleanor/camera.h:102-114 | with the world up (0, 1, 0), Right has no vertical component, whatever the yaw and pitch |
| Cameras.CameraVectorsOrthogonal | Eleanor/camera.h:102-114 | after updateCameraVectors, Right ⟂ Front and Up is orthogonal to both |
| Cameras.Move | Eleanor/camera.h:68-78 | position moves by +Front·v, -Front·v, -Right·v or +Right·v according to the direction, and the vector used is left scaled by v |
| Cameras.ForwardBackwardDrift | Eleanor/camera.h:70-73 | because Front is scaled in place, a forward then a backward step leaves the camera displaced by Front·(v - v²), with Front scaled by v² |
| Cameras.ClampPitch | Eleanor/camera.h:87-90 | the constrained pitch lies in [-89, 89] and equals the input when that is in range |
| Cameras.ScrollZoom | Eleanor/camera.h:95-99 | the result lies in [1, 45]; from an in-range zoom it is zoom - yoffset clamped to [1, 45], otherwise the old zoom clamped |
| Cameras.ScrollComposes | Eleanor/camera.h:95-99 | scrolling by 0 changes nothing, and two in-range scrolls compose into one |
| Cameras.Camera.constructor | Eleanor/camera.h:46-53 | defaults position (0,0,0), up (0,1,0), yaw -90, pitch 0; speed 1, sensitivity 0.1, zoom 45; Front, Right, Up recomputed |
| Cameras.Camera.FromScalars | Eleanor/camera.h:55-62 | the scalar constructor stores the position, world up, yaw and pitch, with the same defaults |
| Cameras.Camera.GetViewMatrix | Eleanor/camera.h:64-66 | lookat(Position, Position+Front, Up): the z row is the normalised reverse of Front, and the translation column is -(Position+Front) |
| Cameras.Camera.ProcessKeyboard | Eleanor/camera.h:68-78 | the new Position, Front and Right are Move with velocity MovementSpeed·deltaTime; nothing else changes |
| Cameras.Camera.ProcessMouseMovement | Eleanor/camera.h:80-93 | Yaw decreases by xoffset·sensitivity and Pitch increases by yoffset·sensitivity, clamped to [-89, 89] when constrained; the vectors are recomputed |
| Cameras.Camera.ProcessMouseScroll | Eleanor/camera.h:95-99 | Zoom becomes ScrollZoom of the old value, so it always lies in [1, 45]; nothing else changes |
| Cameras.Camera.UpdateCameraVectors | Eleanor/camera.h:102-114 | Front, Right and Up are recomputed from Yaw, Pitch and WorldUp; nothing else changes |
| TgaLayout.PixelRange | Eleanor/TGAImage.h:178 | the bytes of a pixel inside the image lie inside the width·height·bytespp buffer |
| TgaLayout.OffDisjoint | Eleanor/TGAImage.h:185 | the byte ranges of two different pixels do not overlap |
| TgaLayout.FlipV | Eleanor/TGAImage.h:189-203 | pixel (x, y) of the flipped buffer holds pixel (x, height-1-y) of the original |
| TgaLayout.FlipH | Eleanor/TGAImage.h:160-172 | pixel (x, y) of the flipped buffer holds pixel (width-1-x, y) of the original |
| TgaLayout.FlipVInvolution | Eleanor/TGAImage.h:189-203 | flipping vertically twice restores the buffer |
| TgaLayout.FlipHInvolution | Eleanor/TGAImage.h:160-172 | flipping horizontally twice restores the buffer |
| TgaLayout.MiddleRowFixed | Eleanor/TGAImage.h:193-200 | the middle row of an odd-height image stays in place |
| TgaLayout.FlipsCommute | Eleanor/TGAImage.h:104-105 | the two flips commute, so their order in `read_tga_file` does not matter |
| TgaLayout.Splice | Eleanor/TGAImage.h:197-199 | what one memmove leaves: the bytes before and after the range are kept |
| TgaLayout.RowPairSplice | Eleanor/TGAImage.h:195-199 | the three memmoves of one iteration exchange rows j and height-1-j |
| TgaLayout.RowsStep | Eleanor/TGAImage.h:194-200 | each iteration advances the vertical flip by one row pair |
| TgaLayout.RowsEnds | Eleanor/TGAImage.h:193-200 | before the loop nothing has moved; after height/2 iterations the buffer is FlipV of the original |
| TgaLayout.ColumnsStep | Eleanor/TGAImage.h:164-169 | each inner iteration advances the horizontal flip by one pixel pair |
| TgaLayout.ColumnsEnds | Eleanor/TGAImage.h:162-170 | column i done in every row is column i+1 begun, and width/2 columns done is FlipH |
| TgaRle.Start | Eleanor/TGAImage.h:112-115 | the decoder starts good, at the given input position, with nothing written and currentpixel 0 |
| TgaRle.PutPixel | Eleanor/TGAImage.h:131-137 | one pixel's bytes are appended and counted; as written, the count is checked only after the write, while the corrected decoder checks first |
| TgaRle.RawPixels | Eleanor/TGAImage.h:125-138 | a literal packet reads and writes its pixels one at a time, and fails on a short input |
| TgaRle.RunPixels | Eleanor/TGAImage.h:146-154 | a run packet writes its one pixel n times |
| TgaRle.Packet | Eleanor/TGAImage.h:117-155 | a missing header byte fails; h < 128 is a literal packet of h+1 pixels, h ≥ 128 a run of h-127 |
| TgaRle.Decode | Eleanor/TGAImage.h:116-156 | the do-while decodes at least one packet, and goes on until currentpixel reaches the pixel count or a packet fails |
| TgaRle.Load | Eleanor/TGAImage.h:111-158 | load_rle_data from a start position for a given pixel count and bytes per pixel |
| TgaRle.DecodeStep | Eleanor/TGAImage.h:116-156 | one round of the loop is one packet followed by the rest of the loop |
| TgaRle.RawStep | Eleanor/TGAImage.h:125-137 | one literal pixel is bytespp input bytes, read and then written |
| TgaRle.RawCopies | Eleanor/TGAImage.h:123-138 | a literal packet with room copies n·bytespp input bytes verbatim |
| TgaRle.RunRepeats | Eleanor/TGAImage.h:139-155 | a run packet with room writes its pixel n times |
| TgaRle.LiteralPacket | Eleanor/TGAImage.h:123-138 | header h < 128 copies the next (h+1)·bytespp input bytes verbatim |
| TgaRle.RunPacket | Eleanor/TGAImage.h:139-155 | header h ≥ 128 reads one pixel and writes it h-127 times |
| TgaRle.PutPixelCounts | Eleanor/TGAImage.h:131-137 | a pixel write adds exactly one pixel of bytespp bytes, or fails without writing |
| TgaRle.DecodeBounded | Eleanor/TGAImage.h:116-156 | currentpixel never passes the pixel count when checking first, and passes it by at most one as written; success means exactly the pixel count |
| TgaRle.CorrectedStaysInBuffer | Eleanor/TGAImage.h:111-158 | the corrected decoder never writes beyond width·height·bytespp bytes, and on success fills the buffer exactly |
| TgaRle.AsWrittenOverrunsByAtMostOnePixel | Eleanor/TGAImage.h:131-153 | the decoder as written writes at most one pixel beyond the buffer |
| TgaRle.OrdersAgree | Eleanor/TGAImage.h:125-155 | both orders succeed or fail together and agree on success; on failure the as-written output extends the corrected one by at most one pixel |
| TgaRle.RunOverrunsBuffer | Eleanor/TGAImage.h:146-153 | on a 1-pixel image, a run of two writes two pixels before failing; the corrected decoder writes one |
| TgaRle.EmptyImageOverrun | Eleanor/TGAImage.h:116-137 | on a 0-pixel image, the do-while still writes a literal pixel into the empty buffer; the corrected decoder writes none |
| Tga.ColorOf | Eleanor/TGAImage.h:38-45 | TGAColor(p, bpp) holds the first bpp bytes of p followed by zeros, with bytespp = bpp |
| Tga.NewColor | Eleanor/TGAImage.h:35-37 | TGAColor() has all four bytes zero and bytespp 1 |
| Tga.NewColorFrom | Eleanor/TGAImage.h:38-45 | the copy loop and zeroing loop build ColorOf(p, bpp) |
| Tga.PixelColor | Eleanor/TGAImage.h:174-179 | get reads the pixel's bytes at offset (x + y·width)·bytespp |
| Tga.PutColor | Eleanor/TGAImage.h:181-187 | set writes bytespp bytes of the colour at the pixel's offset, and out of range leaves the buffer as it was |
| Tga.PutColorAt | Eleanor/TGAImage.h:181-187 | after set, byte t of the set pixel is the colour's byte t, and every other byte is unchanged |
| Tga.PixelColorAt | Eleanor/TGAImage.h:174-179 | byte t of get(x, y) is byte t of that pixel in the buffer |
| Tga.GetAfterSet | Eleanor/TGAImage.h:174-187 | get after an in-range set returns the colour's first bytespp bytes, the rest zero |
| Tga.SetLeavesOthers | Eleanor/TGAImage.h:174-187 | set leaves every other pixel as get saw it |
| Tga.PixelPairPut | Eleanor/TGAImage.h:165-168 | two gets followed by two sets exchange the two pixels |
| Tga.Short | Eleanor/TGAImage.h:24-25 | a little-endian signed short lies in [-32768, 32767] |
| Tga.ShortRoundTrip | Eleanor/TGAImage.h:24-25 | encoding a short and reading it back gives the value |
| Tga.ShortBytesRoundTrip | Eleanor/TGAImage.h:24-25 | reading two bytes as a short and encoding it gives the bytes back |
| Tga.Char | Eleanor/TGAImage.h:26-27 | a signed char lies in [-128, 127] |
| Tga.CharBits | Eleanor/TGAImage.h:26-27 | reading a signed char keeps the byte's value modulo 256 |
| Tga.ParseHeader | Eleanor/TGAImage.h:15-28 | the packed header: datatypecode at byte 2, imagedescriptor at 17, width, height and bitsperpixel in their signed ranges |
| Tga.HeaderBytes | Eleanor/TGAImage.h:15-28 | width, height and bitsperpixel are bytes 12-13, 14-15 and 16 of the file |
| Tga.BytesPerPixel | Eleanor/TGAImage.h:82 | `bitsperpixel >> 3` on a signed char is division by 8 rounding down |
| Tga.Decoded | Eleanor/TGAImage.h:85-102 | data is produced exactly for types 2/3 with enough bytes, or types 10/11 whose RLE decoding succeeds; any other type fails |
| Tga.Orient | Eleanor/TGAImage.h:104-105 | flip vertically unless descriptor bit 0x20 is set, then flip horizontally if bit 0x10 is set |
| Tga.OrientInvolution | Eleanor/TGAImage.h:104-105 | a top-left image loads as stored, and applying the same orientation again restores the stored bytes |
| Tga.CopyBytes | Eleanor/TGAImage.h:197-199 | memmove between non-overlapping ranges splices the source bytes into the destination |
| Tga.TgaImage.Get | Eleanor/TGAImage.h:174-179 | without data or out of range the result is TGAColor(); otherwise it is the pixel's bytes |
| Tga.TgaImage.Set | Eleanor/TGAImage.h:181-187 | true exactly with data and in range; the buffer becomes PutColor of the old one |
| Tga.TgaImage.FlipVertically | Eleanor/TGAImage.h:189-203 | false exactly without data; otherwise the buffer becomes FlipV of the old one |
| Tga.TgaImage.SwapRows | Eleanor/TGAImage.h:195-199 | one iteration exchanges rows j1 and j2 through the line buffer |
| Tga.TgaImage.ExchangeRanges | Eleanor/TGAImage.h:197-199 | the three memmoves exchange the two byte ranges |
| Tga.TgaImage.FlipHorizontally | Eleanor/TGAImage.h:160-172 | false exactly without data; otherwise the buffer becomes FlipH of the old one |
| Tga.TgaImage.SwapPixels | Eleanor/TGAImage.h:165-168 | the inner loop body exchanges pixels (i, j) and (width-1-i, j) |
| Tga.TgaImage.LoadRleData | Eleanor/TGAImage.h:111-158 | success and written bytes are those of the corrected decoder, which stays inside the buffer; later bytes keep their old values |
| Tga.TgaImage.DecodePacket | Eleanor/TGAImage.h:117-155 | one pass of the do-while body does what TgaRle.Packet does, with the counters tracking the written bytes |
| Tga.TgaImage.RawPacket | Eleanor/TGAImage.h:123-138 | the literal branch does what TgaRle.RawPixels does |
| Tga.TgaImage.RawOne | Eleanor/TGAImage.h:126-137 | one pixel of a literal packet: TgaRle.RawPixels over m pixels from the state before equals RawPixels over m-1 from the state after; false exactly when that state failed, with the buffer unchanged; otherwise the buffer holds the decoded bytes so far followed by the untouched rest, and the counters match the new state |
| Tga.TgaImage.RunPacket | Eleanor/TGAImage.h:146-154 | the run branch does what TgaRle.RunPixels does |
| Tga.TgaImage.ReadPixel | Eleanor/TGAImage.h:126 | reading bytespp input bytes into colorbuffer |
| Tga.TgaImage.WritePixel | Eleanor/TGAImage.h:131-132 | the byte loop appends colorbuffer's bytespp bytes at currentbyte |
| Tga.TgaImage.ReadBytes | Eleanor/TGAImage.h:86 | the raw read fills the first n bytes of data |
| Tga.TgaImage.ReadTgaFile | Eleanor/TGAImage.h:63-109 | a short header fails with nothing changed; otherwise the sizes come from the header, the result is true exactly when the data decodes, and the data is then the oriented decoded bytes |
| Tga.TgaImage.ApplyOrigin | Eleanor/TGAImage.h:104-105 | the buffer becomes Orient of the old one: flipped vertically unless bit 0x20 is set, then horizontally when bit 0x10 is set |
| Tga.TgaImage.LoadData | Eleanor/TGAImage.h:85-102 | the datatypecode dispatch succeeds exactly when Decoded does, and then holds its bytes |
| FrameBuffers.MakeColor | Eleanor/framebuffer.h:17-22 | Color(rr, gg, bb, aa) stores the four channels |
| FrameBuffers.OpaqueByDefault | Eleanor/framebuffer.h:17 | alpha defaults to 255 |
| FrameBuffers.Trunc | Eleanor/softrenderer.h:136 | the float-to-int conversion truncates toward zero |
| FrameBuffers.CellIndex | Eleanor/framebuffer.h:39-42 | an in-range (x, y) indexes inside the width·height buffer |
| FrameBuffers.CellsDistinct | Eleanor/framebuffer.h:39-42 | distinct in-range pixels have distinct cells, and equal cells mean equal pixels |
| FrameBuffers.SetPixel | Eleanor/framebuffer.h:39-43 | set on the buffer contents preserves its length |
| FrameBuffers.SetPixelEffect | Eleanor/framebuffer.h:39-43 | after set, the set pixel reads back the colour, every other pixel is unchanged, and out-of-range calls change nothing |
| FrameBuffers.Paint | Eleanor/main.cpp:53-58 | a sequence of set calls preserves the buffer length |
| FrameBuffers.PaintEffect | Eleanor/main.cpp:53-58 | painting points colours exactly the in-range pixels among them, and drops out-of-range points silently |
| FrameBuffers.PaintAppend | Eleanor/main.cpp:98-108 | painting one list and then another is painting their concatenation |
| FrameBuffers.PaintAll | Eleanor/main.cpp:98-108 | painting several lists in turn preserves the buffer length |
| FrameBuffers.PaintAllEffect | Eleanor/main.cpp:98-108 | painting several lists colours exactly the in-range pixels on any of them |
| FrameBuffers.FrameBuffer.constructor | Eleanor/framebuffer.h:32-37 | width·height pixels, every byte zero |
| FrameBuffers.FrameBuffer.Set | Eleanor/framebuffer.h:39-43 | true exactly in range; the buffer becomes SetPixel of the old one |
| Lines.Arrange | Eleanor/main.cpp:38-47 | steep exactly when \|x0-x1\| < \|y0-y1\|; afterwards x0 ≤ x1 over the larger extent, and \|dy\| ≤ dx |
| Lines.SwapEnds | Eleanor/main.cpp:38-47 | the two swaps leave exactly the arrangement Lines.Arrange describes |
| Lines.ArrangeKeepsEndpoints | Eleanor/main.cpp:38-58 | the swapped endpoints, plotted back as (y, x) when steep, are the caller's two points |
| Lines.Advance | Eleanor/main.cpp:59-63 | the minor coordinate moves by nothing or by one toward y1, it moves exactly when error2 + 2\|dy\| exceeds dx, and then the error drops by 2dx |
| Lines.Walk | Eleanor/main.cpp:53-64 | one point per major coordinate from x through x1, the first one at (x, y) in the swapped frame |
| Lines.Points | Eleanor/main.cpp:36-65 | the line is never empty and starts at one of its two endpoints |
| Lines.WalkAt | Eleanor/main.cpp:53-64 | one point per major coordinate from x to x1; the i-th has the minor coordinate after i updates |
| Lines.PointCount | Eleanor/main.cpp:53 | `line` plots max(\|dx\|, \|dy\|) + 1 points |
| Lines.ErrorBounded | Eleanor/main.cpp:59-63 | error2 stays within [-dx, dx] |
| Lines.MinorStep | Eleanor/main.cpp:59-63 | each update moves the minor coordinate by nothing or by one toward y1 |
| Lines.ErrorAccount | Eleanor/main.cpp:59-63 | error2 is 2\|dy\| per update minus 2dx per minor step taken |
| Lines.ReachesEnd | Eleanor/main.cpp:48-64 | after dx updates the minor coordinate has reached y1 |
| Lines.LineJoinsEndpoints | Eleanor/main.cpp:36-65 | the first and last points plotted are the two endpoints |
| Lines.PointSteps | Eleanor/main.cpp:53-64 | consecutive points advance the major coordinate by one, and the minor coordinate by 0 or by one toward the far end |
| Wireframe.ScreenX | Eleanor/main.cpp:102-104 | NDC x in [-1, 1] truncates to a column in [0, 800] |
| Wireframe.ScreenY | Eleanor/main.cpp:103-105 | NDC y in [-1, 1] truncates to a row in [0, 600], with y flipped |
| Wireframe.Line | Eleanor/main.cpp:36-65 | the framebuffer becomes Paint of the old contents with the line's points |
| Wireframe.FaceEdges | Eleanor/main.cpp:98-108 | a face has three edges |
| Wireframe.DrawFace | Eleanor/main.cpp:98-108 | drawing the remaining edges of a face preserves the buffer length |
| Wireframe.DrawFaceStep | Eleanor/main.cpp:98-108 | drawing edge k and then the rest is drawing from k |
| Wireframe.DrawShape | Eleanor/main.cpp:83-109 | drawing a shape's remaining faces preserves the buffer length |
| Wireframe.DrawShapes | Eleanor/main.cpp:82-110 | drawing the remaining shapes preserves the buffer length |
| Wireframe.DrawFaceEffect | Eleanor/main.cpp:98-108 | one face colours exactly the in-range pixels on its three edges k→(k+1)%3 |
| Wireframe.DrawShapeEffect | Eleanor/main.cpp:83-109 | a shape's faces from f on colour exactly the in-range pixels on their edges |
| Wireframe.DrawShapesEffect | Eleanor/main.cpp:82-110 | the shapes from s on colour exactly the in-range pixels on their faces' edges |
| Wireframe.DrawWireframe | Eleanor/main.cpp:67-111 | if loading fails, nothing changes; otherwise every in-range pixel ends up red exactly when it lies on some face edge, and every other pixel is unchanged |
| Wireframe.DrawShapeFaces | Eleanor/main.cpp:83-109 | the face loop of one shape leaves the framebuffer as DrawShape of the old one: each whole face in order |
| Wireframe.DrawFaceEdges | Eleanor/main.cpp:98-108 | the edge loop of one face leaves the framebuffer as DrawFace of the old one: edges k -> (k+1)%3 for k = 0, 1, 2 |
| ModelLoader.GetIndexSize | Eleanor/ModelLoader.h:33-35 | the index count of shape 0 |
| ModelLoader.FaceCount | Eleanor/main.cpp:83 | the face count is the index count divided by 3, rounding down |
| ModelLoader.FaceCornersInRange | Eleanor/ModelLoader.h:37-39 | every corner 3f+k of a whole face is a valid index |
| ModelLoader.GetVertex | Eleanor/ModelLoader.h:41-48 | the vertex has w = 1 |
| ModelLoader.VertexOfFlattened | Eleanor/ModelLoader.h:41-48 | getVertex(i) reads vertices[3i..3i+2], which is point i in homogeneous form |
| ModelLoader.GetIndex | Eleanor/ModelLoader.h:37-39 | the corner is an entry of the first shape's index list |
| ModelLoader.GetNormal | Eleanor/ModelLoader.h:50-56 | component k of the normal is entry 3·vid + k of the flat normal array |
| ModelLoader.NormalOfFlattened | Eleanor/ModelLoader.h:50-56 | getNormal(i) reads normals[3i..3i+2], which is normal i |
| Render.Barycentric | Eleanor/softrenderer.h:109-114 | the three weights always sum to one, the sentinel (-1, 1, 1) included |
| Render.Weights | Eleanor/softrenderer.h:111-113 | the weights from u = a × b sum to one, in the degenerate case as well |
| Render.BarycentricDegenerate | Eleanor/softrenderer.h:109-114 | when \|u.z\| < 1 the weights are (-1, 1, 1), which are always rejected |
| Render.SentinelIsAlsoAWeight | Eleanor/softrenderer.h:112-113 | in a non-degenerate triangle, the point p1+p2-p0 also gets the weights (-1, 1, 1), so the sentinel does not by itself mean degeneracy |
| Render.BarycentricWeights | Eleanor/softrenderer.h:109-114 | otherwise the weights sum to 1 and reproduce the point from the three corners |
| Render.DepthBetween | Eleanor/softrenderer.h:132-133 | for accepted weights the interpolated z lies between the corners' depths, and equals a corner's depth at that corner |
| Render.IndicesInRange | Eleanor/softrenderer.h:117-136 | inside the clamped box, the depth index and the colour index lie in [0, width·height), and `set` accepts the point |
| Render.IndicesAgreeOnIntegers | Eleanor/softrenderer.h:127-136 | at whole-number coordinates the depth index int(p.x+p.y·width) equals the colour index |
| Render.IndicesDisagreeOnFractions | Eleanor/softrenderer.h:127-136 | at a fractional row they differ: in a 4-wide buffer (0, 0.5) tests depth cell 2 but colours cell 0 |
| Render.Shade | Eleanor/softrenderer.h:129-137 | one fill step keeps both buffers' sizes |
| Render.ShadeEffect | Eleanor/softrenderer.h:129-137 | a point changes the buffers only if its weights are non-negative and z exceeds the stored depth; then exactly that depth cell gets z and that colour cell the colour; stored depth never decreases |
| Render.ScanColumn | Eleanor/softrenderer.h:128-138 | one column of the fill keeps both buffers' sizes |
| Render.ScanRows | Eleanor/softrenderer.h:127-139 | the whole fill keeps both buffers' sizes |
| Render.ColumnRaisesDepth | Eleanor/softrenderer.h:128-138 | no stored depth decreases along a column |
| Render.FillRaisesDepth | Eleanor/softrenderer.h:127-139 | no stored depth decreases over the whole fill |
| Render.DegenerateColumn | Eleanor/softrenderer.h:128-138 | a triangle with \|u.z\| < 1 leaves a column untouched |
| Render.DegenerateFill | Eleanor/softrenderer.h:127-139 | a triangle with \|u.z\| < 1 writes nothing at all |
| Render.BoxClosedForm | Eleanor/softrenderer.h:117-125 | the box is [max(0, min(clamp, min of corners)), min(clamp, max(0, max of corners))] per axis, inside [0, clamp] |
| Render.SoftRenderer.constructor | Eleanor/softrenderer.h:36-46 | every colour byte zero and every depth -FLT_MAX |
| Render.SoftRenderer.Set | Eleanor/softrenderer.h:48-52 | true exactly in range; the colour buffer becomes SetPixel of the old one |
| Render.SoftRenderer.Clear | Eleanor/softrenderer.h:67-72 | every colour byte zero and every depth -FLT_MAX again |
| Render.SoftRenderer.Line | Eleanor/softrenderer.h:78-107 | the colour buffer becomes Paint of the old one with the Bresenham points |
| Render.SoftRenderer.BoundingBox | Eleanor/softrenderer.h:117-125 | the two loops compute the folded, clamped box corners |
| Render.SoftRenderer.InterpolateDepth | Eleanor/softrenderer.h:132-133 | the accumulated z is the interpolated depth, and for weights of a point inside the triangle it lies between the smallest and largest corner depth |
| Render.SoftRenderer.ShadePoint | Eleanor/softrenderer.h:129-137 | the inner loop body changes the buffers as Shade does |
| Render.SoftRenderer.ShadeColumn | Eleanor/softrenderer.h:128-138 | one pass of the inner loop over a column changes the buffers as ScanColumn does |
| Render.SoftRenderer.Triangle | Eleanor/softrenderer.h:116-140 | the buffers become ScanRows over the clamped box, and no stored depth decreases |
| Shaders.ClipPosition | Eleanor/shaders.h:38 | viewport·MVP·pos is pos taken through MVP and then through the viewport |
| Shaders.TransformNormal | Eleanor/shaders.h:42-44 | (n, 0) through MVP_IT: component i uses only the upper-left 3×3 block |
| Shaders.NormalIgnoresTranslation | Eleanor/shaders.h:42-44 | the translation column and the bottom row of MVP_IT do not affect the normal |
| Shaders.Upper | Eleanor/shaders.h:79 | `matrix33(transforms->model)` is the upper-left block |
| Shaders.UpperIsCopy | Eleanor/shaders.h:85 | any matrix33 copied out of a matrix44 equals that block |
| Shaders.Interpolate | Eleanor/shaders.h:53-55 | Σ slot[i]·bc[i] per component; unit weights e_k give slot k back exactly |
| Shaders.Interpolate2 | Eleanor/shaders.h:57-59 | the same for the vector2 slots |
| Shaders.InterpolateConstant | Eleanor/shaders.h:128-139 | weights summing to 1 blend three equal slots to their common value |
| Shaders.ClampedFactor | Eleanor/shaders.h:61 | max(0, x) is never negative, never below x, and equals x exactly when x ≥ 0 |
| Shaders.FrameAsWritten | Eleanor/shaders.h:95-101 | as written, N is scaled in place by T·N, and B is built from the scaled N |
| Shaders.AsWrittenCollapsesFrame | Eleanor/shaders.h:95-99 | when T ⟂ N the written code zeroes both N and B, and T is only normalised again |
| Shaders.AsWrittenCollapsesUnitFrame | Eleanor/shaders.h:95-99 | T = (1,0,0), N = (0,0,1) gives N = B = (0,0,0) |
| Shaders.Frame | Eleanor/shaders.h:89-101 | the intended frame keeps N, and against a unit N, T, B and N are pairwise orthogonal |
| Shaders.FrameOrthogonal | Eleanor/shaders.h:95-99 | removing the N component of T leaves it orthogonal to a unit N, and N × T is orthogonal to both |
| Shaders.TangentBasis | Eleanor/shaders.h:84-102 | the transposed TBN of the frame as written; when the corner's T is orthogonal to its N, B and N reach `matrix33(T, B, N)` as zero vectors |
| Shaders.TestShader.constructor | Eleanor/shaders.h:29-32 | the slot arrays hold three entries each, with whatever the memory held |
| Shaders.TestShader.Vertex | Eleanor/shaders.h:34-49 | writes only slot nthvert of normals (the normal through MVP_IT) and of uvs, and returns viewport·MVP·position |
| Shaders.TestShader.Fragment | Eleanor/shaders.h:51-63 | diffuse = max(0, n·light) is ≥ 0 and ≥ n·light; at a corner's unit weights, n and uv are that corner's slots |
| Shaders.TangentShader.constructor | Eleanor/shaders.h:66-73 | the five slot arrays hold three entries each, with whatever the memory held |
| Shaders.TangentShader.Vertex | Eleanor/shaders.h:75-110 | writes slot nthvert of uvs and of the three tangent-space arrays through the transposed TBN of the frame as written (N scaled by T·N), never writes normals, and returns viewport·MVP·position |
| Shaders.TangentShader.Fragment | Eleanor/shaders.h:112-157 | diffuse and the specular base are ≥ 0; at a corner's unit weights, uv, lightDir and viewDir come from that corner's slots |

## Left out

- Display and UI are not modelled: `viewer.h`, `FPSDisplay.h`, the `draw` methods of `SoftRenderer` and `FrameBuffer`, and the SDL setup in `main.cpp`. They are SDL window and event I/O.
- `tinyobj::LoadObj` and the `Model` constructor wrap a library that is not part of this model. The loaded mesh is a `ModelLoader.Model` value, and `wireframe` takes LoadObj's result as a `loaded` flag.
- File I/O is not modelled:
  - `read_tga_file` and `load_rle_data` work on the byte sequence of the file, so an open or read failure becomes a short input;
  - the error messages written to `std::cerr` are not modelled.
- Tga.TgaImage.ReadTgaFile returns `Unmodelled`, without stating the buffer, whenever a size is negative, the header gives a negative count or more than 4 bytes per pixel, or the byte count reaches 2^31. On part of that domain the source is undefined (the RLE decoder and the horizontal flip copy pixels through the 4-byte `TGAColor`) or fails to allocate (a vertical flip with a negative width). The model does not follow the source where it is defined there: raw data at 5 to 15 bytes per pixel without a horizontal flip, both sizes negative with the top-left origin bit 0x20 set, a zero size with a negative bits-per-pixel, one size 0 and the other negative at 1 to 4 bytes per pixel (width 0 with either origin, or height 0 with bit 0x20 set), a negative size at 0 bytes per pixel, and byte counts that the `int` product wraps back into range.
- Floating point: `float` is a `real`, and no contract speaks of rounding, infinities or NaN. Division by zero is excluded by the `requires` of `Vector3.Div` and `Vector4.Div`.
- Vector3.Normalize does not model the zero vector's NaN: in the source its length is 0, `1.0f/len` is an infinity, and every component becomes `0*inf`, which is NaN. The model multiplies by the supplied `invLength` and so keeps zero. This reaches `Cameras.CameraVectors` when Front is parallel to WorldUp, `TransformUtils.LookAt` when `up` is parallel to `eye - center`, and `Shaders.FrameAsWritten` when T is parallel to N.
- Square roots are not computed. `normalize` multiplies by a reciprocal length that is a parameter (`invLength`), so no contract states that a normalised vector has length 1.
- Trigonometry is not computed: `sin` and `cos` are parameters in `updateCameraVectors` and `rotateMatrix`.
- Integer widths are not modelled: these are unbounded integers in the model, where the source uses `int`:
  - `width*height` and the byte counts, in the renderer and the framebuffer;
  - the `(int)` cast of the `size_t` index count in `getIndexSize` (`ModelLoader.GetIndexSize`), which the model takes as the exact count;
  - Bresenham's `dx`, `dy`, `derror2 = std::abs(dy)*2` and `error2` (`main.cpp:48-63`, `softrenderer.h:90-105`), including `std::abs(INT_MIN)`, which is undefined in the source;
  - the float-to-int conversions of out-of-range coordinates (`FrameBuffers.Trunc`), which are undefined in the source.
- The `wireframe` conversion from NDC to pixels (`Wireframe.ScreenX`/`ScreenY`, truncation toward zero) is exact real arithmetic, without the rounding of the float expression `(v+1.0)*SCREEN_WIDTH/2.0`.
- `transform.h`'s `update()` is not modelled, because it calls `matrix44::inverse`, `transpose` and a copy constructor that the math headers do not define. The shaders read a `Transforms` value as given.
- Methods the shaders call that no header defines are parameters in `Shaders.Externals`:
  - `Model::getUV`, `getTangent`, `getDiffuse`, the texture `getNormal(u, v)`, `matrix33::inverse` and `matrix33(T, B, N)`;
  - the vector4-to-vector3 conversions at `shaders.h:37` and `:78` are `Vector4.Xyz`;
  - `camera->pos` is the `cameraPos` field.
- Shaders.TestShader.Fragment and Shaders.TangentShader.Fragment stop before the colour arithmetic: `TGAColor` products, the ambient term, and `std::pow` on the specular base. Their results are the lighting factors, not the colour written to `c`.
- TangentShader's fragment also interpolates `normals` (`shaders.h:113-116`), but never uses the value. `Vertex` never writes those slots. The model leaves the dead interpolation out.
- Linearity of the blend (blending slot differences equals the difference of blends) is not proved: the proof is nonlinear real arithmetic, and it exceeds the verifier's resource limit.
- The `IShader` virtual dispatch is not modelled; the two shaders are two independent classes.
- Square.Transpose returns the new value of the receiver, where the source swaps entries in place inside a struct value.
- Render.BarycentricDegenerate is stated in one direction only: |u.z| < 1 implies the sentinel (-1, 1, 1). The converse is false, which Render.SentinelIsAlsoAWeight shows.
- Render.SoftRenderer.Triangle does not impose integer bounding-box corners. It models the mismatch between the depth index `int(p.x+p.y*width)` and the colour index (`(int)p.y*width+(int)p.x`) faithfully, and Render.IndicesDisagreeOnFractions exhibits it.
- `scene.h`, `math/math.h` and the `dump()` helpers hold nothing to state.

## Findings

| source | as written | input that shows it | evidently intended | confidence | as-written member | corrected member |
|---|---|---|---|---|---|---|
| Eleanor/TGAImage.h:131-137 | each pixel's bytes are written to `data[currentbyte++]` before `currentpixel > pixelcount` is tested, so the pixel that trips the test has already been stored past the `width*height*bytespp` buffer; since the do-while tests only at the end, a 0-pixel image also gets its first pixel written | a 1×1 image, 1 byte per pixel, with the RLE data `0x81 0xAA`: a run of two writes 2 bytes into a 1-byte buffer; and a 0×0 image with the data `0x00 0x55` writes 1 byte into an empty buffer | test for room before writing a pixel, and never write past the buffer | not executed | TgaRle.RunOverrunsBuffer, TgaRle.EmptyImageOverrun, TgaRle.AsWrittenOverrunsByAtMostOnePixel | TgaRle.CorrectedStaysInBuffer, Tga.TgaImage.LoadRleData |
| Eleanor/shaders.h:95 | `T = T - N * vector3Dot(T, N)` scales N in place by T·N (`vector3::operator*` changes its receiver), so the N and B of the TBN matrix are the scaled N and the cross product built from it | T = (1, 0, 0) and N = (0, 0, 1): T·N = 0, so N becomes (0, 0, 0) and B = N × T = (0, 0, 0) | a Gram-Schmidt step T - (T·N)N that leaves N alone, so T, B and N are pairwise orthogonal for a unit N | not executed | Shaders.FrameAsWritten, Shaders.AsWrittenCollapsesUnitFrame | Shaders.Frame, Shaders.FrameOrthogonal |
