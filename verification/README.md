# Verification model of the remote desktop client

A Dafny model of the parts of the client where a mistake would be quiet: a stale
rectangle on screen, a message nobody wakes up for, a key the session thinks is held.
Each part is modelled after its own source file and proved for every input or every run.

`dafny verify dfyconfig.toml` checks everything.

## What is modelled

- **Presentation** (`Rects`, `Pixels`, `Canvas`, `Damage`, `Blit`, `Cursor`, `Frames`,
  `Presenter`). `App::redraw` paints and presents only rectangles, into swap-chain buffers
  that come back old. `Frames` is the window and the window system as a state machine:
  buffers of any age, replaced buffers, failed presents, resizes, exposes, link loss,
  reconnection. The simple thing it is measured against is `Picture`: magnified framebuffer,
  dim, bar, GUI and pointer repainted whole every frame. `Presenter` runs the real loops on a
  real array and meets the state machine pixel by pixel.
- **The software triangle** (`Geometry`, `Shading`, `Raster`, `Triangles`). The scanline
  method with its trimmed spans and its constant-texture, constant-colour and opaque fast
  paths, against the bounding-box method the source keeps as its oracle, over exact reals.
- **The reader's backlog** (`Backlog`). The byte-budget monitor, and the rule that wakes the
  interface only when the queue is short, as interleaved steps of two threads.
- **The outgoing stream** (`Outbound`). The compare-exchange reservation loop against an
  interfering worker, the bounded queue, and failing closed, as interleaved steps.
- **Reconnecting** (`Reconnect`). Link states, the endpoint's owner, the retry budget.
- **The keyboard mirror** (`KeyMirror`). What is recorded as pressed, against what the
  session was told.
- **X11 file clipboard** (`SelectionOwner`, `Snapshot`). Owning CLIPBOARD while others take
  it (section 2.3.2 of the Inter-Client Communication Conventions Manual), and watching it
  through a ring of request properties and a revision.
- **Text that is read back** (`Rejection`, `ShellJoin`). Rejection codes in error text, and
  a shell line under sections 2.2 and 2.3 of the POSIX.1-2017 Shell Command Language.

Methods over arrays and objects are proved equal to a function of the old state; what the
source promises is proved about those functions. Sequential code keeps its loops and fields;
code that runs on two threads is a state machine whose steps are its atomic actions.

## Where the code does less than its documentation

- An expose that arrives while a redraw of our own is outstanding is taken for that request
  (`crates/client/src/app.rs:3093`), so the frame it brings may leave lost pixels on screen.
  `ExposeIsRepairedExactly` gives the exact condition in what the window knows of itself,
  `ExposeTakenForARequest` a run that loses a pixel, and `UnaskedFrameRepairs` that the next
  unasked redraw brings everything back.
- Publishing the session's files stores the clipboard's revision with nothing read at it
  (`crates/client/src/app.rs:2036`), although the viewer takes a stored revision for one it
  has consumed (`crates/client/src/app.rs:2212`). Another program's copy in that moment is
  never read: `MarkedCopyIsMissed` is the run, `MarkIsSafeExactly` when the store is safe, and
  `ConsumedExactlyIfRead` what a stored revision is worth in any state of any run.
- The early return for a clear constant triangle (`crates/client/src/gui_paint.rs:113-115`)
  keeps a top byte that blending would clear. `FastBufferIsReference` is the exact condition:
  on `0x00RRGGBB` pixels nothing differs.
- A key whose accelerator press was kept and whose repeat was forwarded after Ctrl came up is
  left held when it is released (`crates/client/src/app.rs:2411-2413`).
  `UpLetsGoExactly` gives the condition, `RepeatOutlivesItsAccelerator` the key presses.
- Secure attention trusts a recorded modifier to be held (`crates/client/src/app.rs:1811-1818`).
  With two keys spelled alike and one let go it is not, and Delete goes down without it:
  `DeleteUnderBothModifiersExactly` and `DeleteWithoutControl`. `RecordIsExact` says over which
  runs the record can be trusted.
- An answer a whole ring of requests late is taken for the latest one's
  (`crates/client/src/fileclip_x11_read.rs:200`): `StaleIsTakenExactly`.
- The comment on the retry budget says about a minute
  (`crates/client/src/app.rs:112-119`); the waits of all eight attempts come to 120 seconds.

## Model

| member | source | states |
|---|---|---|
| Rects.Rect.Intersect | crates/proto/src/image.rs:55-65 | exactly the pixels both rectangles have |
| Rects.Rect.Union | crates/proto/src/image.rs:68-80 | the smallest rectangle holding both |
| Rects.ContainsIsInclusion | crates/proto/src/image.rs:88-94 | the corner comparison decides inclusion of pixel sets, both ways |
| Rects.ScaleRectCovers | crates/client/src/app.rs:2790-2798 | a magnified rectangle holds every window pixel that shows one of its pixels, even where it saturates, and only those where it does not |
| Rects.ScaledEdgesFit | crates/client/src/app.rs:2790-2798 | for 16-bit screens and the magnifications allowed, the far edges stay exact and representable |
| Rects.CellIsQuotient | crates/client/src/app.rs:3583-3591 | the model's cells are the source's `y / scale` and `(sy + 1) * scale` |
| Pixels.WordsArePixels | crates/client/src/app.rs:3641-3665 | splitting a 32-bit word into four bytes and joining them again are inverse |
| Pixels.RowStartIsProduct | crates/client/src/app.rs:3529-3530 | the model's row offsets are the source's `y * dst_w` |
| Pixels.Blend | crates/client/src/app.rs:2977-2981 | a blended channel lies between the two colours, so the clamp to 255 never acts |
| Pixels.BlendIsNearest | crates/client/src/app.rs:2980 | a blended channel is the colour at its opacity and what is under it at the rest, rounded to nearest |
| Pixels.BlendPixelIsNearest | crates/client/src/app.rs:2969-2983 | each channel of a blended pixel is its own two colours' mix, at the opacity held at 255, and the top byte is clear |
| Damage.DamageRegions | crates/client/src/app.rs:2811-2831 | the loop with its skips and retains computes `Regions` |
| Damage.RegionsUnion | crates/client/src/app.rs:2811-2831 | as pixels, the list is the clipped union of the candidates, or the whole window when full or when nothing is in it; no rectangle of it is empty or holds another |
| Damage.GatheredUnion | crates/client/src/app.rs:2815-2825 | dropping covered rectangles never changes the union |
| Damage.StaleRegions | crates/client/src/app.rs:2845-2853 | something is known of a buffer exactly when its age is nonzero, the log nonempty and the age at most one past it |
| Damage.PlanPresent | crates/client/src/app.rs:2880-2888 | computes the painted and the remembered list |
| Damage.PlanCovers | crates/client/src/app.rs:2880-2888 | the painted list holds this frame's damage and the stale part, the remembered one this frame's damage, neither anything outside the window |
| Damage.RepaintDecay | crates/client/src/app.rs:2863-2872 | with the last n frames not full and each with damage, a buffer n frames old is repainted exactly where those n frames changed something |
| Canvas.RepaintIsUnique | crates/client/src/app.rs:3516-3538 | the pixels inside and outside a rectangle decide the whole buffer |
| Blit.Blit | crates/client/src/app.rs:3492-3506 | every window pixel becomes the framebuffer's pixel, or black past it |
| Blit.BlitRect | crates/client/src/app.rs:3516-3538 | the same inside the clipped rectangle; every other pixel is untouched; nothing happens on a short buffer |
| Blit.BlitIsBlitRectOfWindow | crates/client/src/app.rs:3486-3491 | a rectangle that covers the window gives what the full blit gives |
| Blit.BlitRectScaled | crates/client/src/app.rs:3559-3605 | pixel (x, y) of the clipped rectangle becomes framebuffer pixel (x/s, y/s) or black, nothing else changes, and the band loops end |
| Blit.BlitBand | crates/client/src/app.rs:3582-3604 | one expanded source row serves every window row of its band |
| Blit.ExpandRow | crates/client/src/app.rs:3587-3598 | the scratch row shows the source row magnified and padded |
| Blit.BlendRect | crates/client/src/app.rs:2965-2986 | every pixel of the clipped rectangle is blended once, the rest untouched; opacity zero or a short buffer changes nothing |
| Cursor.OverShortcutsAreTheBlend | crates/client/src/app.rs:3642-3665 | the opaque and transparent shortcuts give the channels the blend would, exactly when the source is not transparent or no colour in it would show |
| Cursor.OverChannelIsNearest | crates/client/src/app.rs:3661-3664 | what shows through a translucent channel is rounded to nearest, and the sum stops at 255 |
| Cursor.PremultipliedIsNearest | crates/client/src/app.rs:3661-3664 | a premultiplied channel never reaches that stop |
| Cursor.OpaqueReplaces | crates/client/src/app.rs:3644-3660 | an opaque source replaces the colour, and only a skipped pixel keeps its top byte |
| Cursor.BoundsAreTheImage | crates/client/src/app.rs:2769-2780 | the bounds hold exactly the window pixels the magnified image reaches, negative origins included |
| Cursor.MagnifiedAboutHotspot | crates/client/src/app.rs:3612-3638 | each image pixel is a block of window pixels, as many blocks from the pointer as it lies pixels from the hotspot, and the bounds hold it |
| Cursor.HotspotIsAtThePointer | crates/client/src/app.rs:3612-3620 | the hotspot's pixel is drawn where the user points, inside the bounds |
| Cursor.DrawCursorScaled | crates/client/src/app.rs:3624-3673 | each window pixel is blended at most once with the source pixel it magnifies, and only inside the bounds |
| Cursor.OutsideBounds | crates/client/src/app.rs:2764-2780 | outside its bounds the pointer changes no pixel |
| Frames.PresentShowsPicture | crates/client/src/app.rs:825-1023 | a frame painting and presenting only its rectangles leaves the buffer the whole picture, and the screen too unless pixels were lost and it was not full |
| Frames.PresentKeeps | crates/client/src/app.rs:980-1014 | what a frame remembers is true of the buffers the next ones may be handed |
| Frames.DecodeKeeps | crates/client/src/app.rs:1145-1153 | a decoded frame changes the window only under its magnified dirty rectangle |
| Frames.StepKeeps | crates/client/src/app.rs:825-1023 | every step of the window and the window system keeps the invariant |
| Frames.EveryPresentShowsThePicture | crates/client/src/app.rs:807-1023 | in every run, each present leaves the buffer the whole picture, and the screen too unless window pixels were lost since the last full frame |
| Frames.FullExactlyWhenNeeded | crates/client/src/app.rs:845-880 | in every run a frame is full exactly when a full repaint is asked for, or the buffer's age is unknown, or it reaches past the last full frame or the log |
| Frames.NothingNewNothingPainted | crates/client/src/app.rs:983-1014 | a frame with nothing new paints the chrome's own rectangles and nothing else |
| Frames.DimmedToNearest | crates/client/src/app.rs:945-951 | without a link each channel shows 115 parts of its 255, to nearest; with one it shows as it is |
| Frames.HotspotOverItsPixel | crates/client/src/app.rs:964-978 | at every magnification the remote pixel pointed at shows the pointer's hotspot |
| Frames.ExposeIsRepairedExactly | crates/client/src/app.rs:3087-3105 | pixels lost before a redraw request are back after its frame, whatever they were and whatever is drained first, exactly when nobody had asked for it, or a full repaint was owed or came to be, or the size is new, or the window is dimmed, or nothing is known of the buffer, or what the frame has to paint covers the window |
| Frames.LossIsRepairedExactly | crates/client/src/app.rs:980-982 | a present brings back every lost pixel, whatever was lost, exactly when its rectangles cover the window |
| Frames.PaintsWindowExactly | crates/client/src/app.rs:912-928 | its rectangles cover the window exactly when the frame is full or what it has to paint covers the window or misses it altogether |
| Frames.ExposeTakenForARequest | crates/client/src/app.rs:3087-3095 | a run from the start where an expose is taken for a request and a pixel stays lost |
| Frames.UnaskedFrameRepairs | crates/client/src/app.rs:3087-3105 | the frame after an unasked redraw shows the whole picture, whatever was lost and whatever is drained first |
| Frames.DrainKeeps | crates/client/src/app.rs:3096 | what the network brings between the request and the frame keeps the invariant, and owes a full repaint only by what it is |
| Frames.RepaintDecays | crates/client/src/app.rs:997-1014 | in every run, with the last n frames not full, a buffer of age n is repainted exactly where those frames' own damage lies |
| Presenter.PaintRegions | crates/client/src/app.rs:929-953 | the blit-and-dim loop paints each covered pixel of the base, dimmed once however the regions overlap |
| Presenter.CoveringListIsFullRepaint | crates/client/src/app.rs:929-953 | any list of rectangles covering the window gives what one full repaint gives |
| Presenter.LayersCompose | crates/client/src/app.rs:929-979 | base, bar, GUI and pointer drawn in turn are the picture's layers |
| Presenter.WindowState.NoteDirty | crates/client/src/app.rs:1145-1153 | the magnified damage joins what is waiting |
| Presenter.WindowState.TakeRequest | crates/client/src/app.rs:3093-3095 | an unasked request owes a full repaint, an asked one is used up |
| Presenter.WindowState.Record | crates/client/src/app.rs:983-1014 | the records after a frame, presented or failed, with the log's depth bounded |
| Presenter.WindowState.Redraw | crates/client/src/app.rs:825-1023 | the whole method: rectangles, pixels and records are the state machine's |
| Presenter.RedrawPaintsTheFrame | crates/client/src/app.rs:929-979 | the method's buffer is, pixel by pixel, the frame the state machine presents |
| Geometry.EdgesSumToArea | crates/client/src/gui_paint.rs:69-71 | the three edge values add up to the area |
| Geometry.CoveredInBox | crates/client/src/gui_paint.rs:91-95 | a covered point lies in the bounding box |
| Geometry.RowInsideIsConvex | crates/client/src/gui_paint.rs:146-153 | between two pixels of a row inside an edge every pixel is inside it |
| Geometry.CoveredRowIsConvex | crates/client/src/gui_paint.rs:146-161 | the covered pixels of a row have no gaps |
| Geometry.DrawnInAnyOrder | crates/client/src/gui_paint.rs:83-90 | what is covered does not depend on the order of the vertices |
| Geometry.ReversedEdge | crates/client/src/gui_paint.rs:101-102 | of the two directions of an edge exactly one holds any point, so a point on it belongs to one side |
| Geometry.SharedEdgeIsOwnedOnce | crates/client/src/gui_paint.rs:101-102 | triangles on opposite sides of an edge never both cover a point |
| Geometry.QuadIsCoveredOnceEitherWay | crates/client/src/gui_paint.rs:101-102 | the two halves of a convex quad cover each inner point exactly once |
| Geometry.RectangleIsHalfOpen | crates/client/src/gui_paint.rs:101-102 | an upright rectangle drawn as two triangles covers its left and top sides, not its right and bottom ones, and every point of it once |
| Geometry.WholePixels | crates/client/src/gui_paint.rs:146-153 | on whole pixels that is the pixels between the corners; a clip takes the centres on its sides in |
| Geometry.ScalingScalesDrawn | crates/client/src/gui_paint.rs:80-90 | scaling a triangle scales what it covers, edges included when it is not turned over |
| Shading.Sample | crates/client/src/gui_paint.rs:197-210 | bilinear sampling, clamped at the borders, always gives a colour in range |
| Shading.SampleAtTexelCentre | crates/client/src/gui_paint.rs:197-210 | at the centre of a texel the sample is that texel |
| Shading.SampleOfGradient | crates/client/src/gui_paint.rs:197-210 | where the texels are a gradient, every sample is the gradient at the place sampled |
| Shading.ModulateTakesAPart | crates/client/src/gui_paint.rs:182 | white leaves a colour as it is, either way round, and a part of white takes that part of each channel |
| Shading.WeightsAt | crates/client/src/gui_paint.rs:171-173 | the barycentric weights sum to one |
| Shading.WeightsLocateThePoint | crates/client/src/gui_paint.rs:171-177 | the weights belong to the right vertices: weighted by them, the vertices average to the point |
| Shading.MixesAtVertices | crates/client/src/gui_paint.rs:171-183 | at each vertex the colour is that vertex's, and so is the place in the texture |
| Shading.ColourMixesEvenly | crates/client/src/gui_paint.rs:181 | vertex colours that are a gradient of position give that gradient at every point |
| Shading.UvMixesEvenly | crates/client/src/gui_paint.rs:175-177 | places in the texture that follow position at the vertices follow it at every point |
| Shading.FastShadeIsReference | crates/client/src/gui_paint.rs:108-112 | sampling a constant texture once and shading a constant triangle once give every pixel its interpolated colour |
| Shading.OpaqueIsBlend | crates/client/src/gui_paint.rs:116-118 | the opaque fill is what blending would give, whatever was there |
| Shading.BlendChannelIsNearest | crates/client/src/gui_paint.rs:186-191 | a channel becomes the colour over the part of the old that shows through, rounded to nearest and held in a byte |
| Shading.ClearIsBlend | crates/client/src/gui_paint.rs:113-115 | blending a clear colour keeps the three channels and clears the top byte |
| Raster.BoxHoldsCovered | crates/client/src/gui_paint.rs:91-95 | the rounded, clipped box loses no covered window pixel |
| Raster.BoxIsTight | crates/client/src/gui_paint.rs:91-95 | nor does the box hold a pixel wholly beside the triangle, the clip or the window |
| Raster.NarrowKeepsInside | crates/client/src/gui_paint.rs:133-143 | rounding an edge's crossing outwards never drops a pixel inside it |
| Raster.NarrowIsTight | crates/client/src/gui_paint.rs:136-145 | nor does it keep a pixel more than one beyond the edge |
| Raster.NarrowRow | crates/client/src/gui_paint.rs:127-145 | after the three edges the span still holds every covered pixel, or the row has none |
| Raster.Trim | crates/client/src/gui_paint.rs:154-159 | the ends are moved in to the first and last covered pixel, dropping no covered one |
| Raster.RowSpan | crates/client/src/gui_paint.rs:119-162 | the trimmed span is exactly the covered pixels of the row |
| Triangles.FastPixelIsReference | crates/client/src/gui_paint.rs:103-194 | at a pixel, the fast paths and the plain rule agree exactly when the top byte is clear or the triangle is not a clear constant one over it |
| Triangles.FastBufferIsReference | crates/client/src/gui_paint.rs:260-327 | on the whole buffer, the scanline triangle equals the bounding-box one exactly under that condition |
| Triangles.SolidShowsItsColour | crates/client/src/gui_paint.rs:103-118 | an opaque triangle of one colour on the texture's white shows that colour, byte for byte, at every pixel it covers |
| Triangles.ColourlessKeepsTopByte | crates/client/src/gui_paint.rs:113-115 | every triangle without colour is a case of it: the fast form keeps a top byte the plain one drops |
| Triangles.DrawTriangle | crates/client/src/gui_paint.rs:72-196 | the optimised method leaves `FastOp` of every window pixel |
| Triangles.DrawRow | crates/client/src/gui_paint.rs:119-194 | one scanline does one more row of the picture |
| Triangles.PaintSpan | crates/client/src/gui_paint.rs:163-194 | filling an opaque span is blending it pixel by pixel |
| Triangles.ReferenceTriangle | crates/client/src/gui_paint.rs:264-327 | the oracle leaves `ReferenceOp` of every window pixel |
| Triangles.PreparedCoversDrawn | crates/client/src/gui_paint.rs:80-90 | after scaling and turning, the triangle covers what the vertices draw, in any order |
| Triangles.PreparedCoversScaled | crates/client/src/gui_paint.rs:80-90 | it covers, scaled, exactly what the vertices as given cover |
| Triangles.PreparedKeepsVertices | crates/client/src/gui_paint.rs:80-90 | where the scale has put a vertex, the triangle still has its colour and its place in the texture |
| Triangles.QuadIsBlendedOnce | crates/client/src/gui_paint.rs:101-102 | a pixel strictly inside a convex quad is blended with one triangle's colour, never both, never neither |
| Backlog.Budget.Attempt | crates/client/src/connection.rs:378-391 | one pass of the admission test: admitted, waiting or refused, and what is charged |
| Backlog.Budget.Release | crates/client/src/connection.rs:393-398 | the charge is taken off, saturating |
| Backlog.Budget.Close | crates/client/src/connection.rs:400-404 | the budget is closed |
| Backlog.StepKeeps | crates/client/src/connection.rs:577-625 | every step of reader and interface keeps the accounts, the order, the notifications and the wakes |
| Backlog.BudgetIsExact | crates/client/src/connection.rs:354-404 | the charge is exactly what is in flight, releasing never saturates, and only a single message can exceed the limit |
| Backlog.AdmittedExactly | crates/client/src/connection.rs:378-391 | in every run a message is admitted exactly when the budget is open and empty or has room for it, held back exactly when open without room, dropped exactly when closed |
| Backlog.MessagesKeepOrder | crates/client/src/connection.rs:577-625 | messages are handled in the order they arrived and none is dropped before closing |
| Backlog.WaitingImpliesWork | crates/client/src/connection.rs:378-391 | a reader held back means a charged message the interface can release, or a notification coming |
| Backlog.BlockedOnlyWhenIdle | crates/client/src/connection.rs:587-597 | reader and interface never deadlock: both are blocked only with everything handled, or closed |
| Backlog.NothingStranded | crates/client/src/connection.rs:613-625 | asleep over queued messages, a wake is posted or the reader is about to post one |
| Backlog.SleeperIsWoken | crates/client/src/app.rs:2301-2307 | the reader's next steps post that wake, and nothing can block them |
| Backlog.WokenExactlyIfShort | crates/client/src/connection.rs:613-620 | the wake is spared exactly when more than one message is queued, and then nobody asleep needs it |
| Backlog.QuietInterfaceRests | crates/client/src/app.rs:2301-2307 | with nothing queued the interface goes to sleep, a posted wake used up |
| Backlog.OneIsHandled | crates/client/src/connection.rs:1030-1040 | left alone, the interface handles the oldest message in three steps, its charge released and the reader notified |
| Backlog.WokenLooks | crates/client/src/app.rs:2301-2307 | whatever wakes a sleeping interface, it looks at the queue |
| Backlog.JoinEnds | crates/client/src/connection.rs:1424-1434 | closing always collects the reader, in a bounded number of its steps |
| Backlog.ClosingTakesFourSteps | crates/client/src/connection.rs:1424-1434 | closing closes the budget, notifies the reader, shuts the socket down and is done once the reader has exited |
| Outbound.Count.Reserve | crates/client/src/outbound.rs:105-124 | under any interference a success adds exactly the size within the limit, a refusal adds nothing and did not fit a count just read, and what fits at the start is accepted |
| Outbound.StepKeeps | crates/client/src/outbound.rs:41-157 | every step of sender and worker keeps the count, the order, the wire and failing closed |
| Outbound.WrittenIsPrefix | crates/client/src/outbound.rs:41-59 | the bytes written are always a gapless prefix of the accepted messages in order |
| Outbound.ExitIsCompleteOrReported | crates/client/src/outbound.rs:42-57 | a worker that ends without a failed write has written everything; after a failed one the error is recorded |
| Outbound.CountIsExact | crates/client/src/outbound.rs:44-45 | the count covers every pending byte, never goes below zero and never passes the limit; nor does the number of messages |
| Outbound.RefusalIsFinal | crates/client/src/outbound.rs:75-97 | once a send is refused nothing more is accepted |
| Outbound.RefusedForAReason | crates/client/src/outbound.rs:75-97 | in every run a send fails only over an error, a closed sender, bytes that did not fit a count read, or a receiver gone or a full queue, and its failure is kept |
| Outbound.ErrorIsExplained | crates/client/src/outbound.rs:47-53 | the first error recorded stays, and a write had failed or a message had not fitted |
| Outbound.RoomMeansAccepted | crates/client/src/outbound.rs:75-113 | in every run a send that begins with room for it is never turned away while no write fails, and has been accepted when it returns |
| Outbound.RoomTakesFiveSteps | crates/client/src/outbound.rs:75-90 | left alone it takes five steps, which count and queue the message and change nothing else |
| Outbound.SendReturns | crates/client/src/outbound.rs:75-128 | every send has a step of its own until it returns, and each brings that nearer but a spurious loss |
| Outbound.WorkerWritesOn | crates/client/src/outbound.rs:44-57 | on a socket still up the worker waits only with every accepted byte written; until then each of its steps brings that nearer |
| Outbound.CloseTakesThreeSteps | crates/client/src/outbound.rs:145-157 | closing drops the sending end, shuts the socket down, and is done once the worker is gone |
| Outbound.ErrorShutsDown | crates/client/src/outbound.rs:47-56 | a recorded error means the socket is shut down, or is about to be by whoever recorded it |
| Outbound.LostExchangeIsProgress | crates/client/src/outbound.rs:112-122 | an exchange lost on its value means the worker took bytes off, so the loop's view goes down |
| Outbound.CloseEnds | crates/client/src/outbound.rs:145-157 | closing always collects the worker, in a bounded number of its steps |
| Reconnect.Window.OnLinkLost | crates/client/src/app.rs:1272-1305 | the new state for every reason and endpoint; ignored unless the link was up |
| Reconnect.Window.StartAttempt | crates/client/src/app.rs:1352-1404 | the endpoint moves to the worker, or the link is gone |
| Reconnect.Window.ReconnectNow | crates/client/src/app.rs:1341-1349 | a person's request restores the budget, and is ignored while up, gone or dialling |
| Reconnect.Window.OnAttemptFailed | crates/client/src/app.rs:1436-1472 | fatal, given up, or put off by the next wait |
| Reconnect.Window.PollReconnect | crates/client/src/app.rs:1407-1433 | a finished attempt is collected, the endpoint first, or a due one started |
| Reconnect.WhoHoldsWhat | crates/client/src/app.rs:1272-1472 | in every reachable state: attempt in flight means reconnecting without the endpoint, waiting means with it, otherwise no attempt; the counter is the attempts, never over the budget; lost only with the budget or the endpoint spent |
| Reconnect.EndpointNeverDuplicated | crates/client/src/app.rs:1357-1416 | an endpoint is held in one place at most, and only the window's own |
| Reconnect.VanishedForGood | crates/client/src/app.rs:1419-1424 | an endpoint that went away with its worker is held nowhere ever after |
| Reconnect.LossIsRetriedExactly | crates/client/src/app.rs:1284-1298 | a loss is retried after the first wait exactly when its reason is not fatal and there is an endpoint; otherwise it is final |
| Reconnect.FailureIsRetriedExactly | crates/client/src/app.rs:1407-1472 | a failed attempt is followed by another exactly when its reason is not fatal, the budget not spent and the endpoint back; else lost or gone |
| Reconnect.ConnectionIsTaken | crates/client/src/app.rs:1410-1415 | polling an answer that connected leaves the link up, the budget whole, the endpoint held and no attempt |
| Reconnect.ConnectedRunComesUp | crates/client/src/app.rs:1475-1487 | in every run an attempt answered with a connection has the link up at the next poll, whatever comes between |
| Reconnect.AskStartsExactly | crates/client/src/app.rs:1341-1349 | a person's request starts an attempt exactly when the window waits or has given up and holds an endpoint |
| Reconnect.NoWorkerNoWayBack | crates/client/src/app.rs:1392-1400 | a worker that cannot be started takes the endpoint with it |
| Reconnect.SinceIsConstant | crates/client/src/app.rs:185-203 | when the link went down stays the same until a client is adopted |
| Reconnect.GoneIsFinal | crates/client/src/app.rs:196-202 | gone is never left and nothing is attempted from it |
| Reconnect.FatalIsNeverRetried | crates/client/src/app.rs:1446-1455 | a fatal reason for the loss or for an attempt ends it for good |
| Reconnect.LeftAloneItEnds | crates/client/src/app.rs:1407-1472 | while every attempt fails each effective step lowers a measure, one is always possible until it stops, and it stops lost or gone |
| Reconnect.WaitsAreTheTable | crates/client/src/app.rs:2933-2935 | the waits since the loss are the table's, one per attempt due |
| Reconnect.StartedExactlyWhenDue | crates/client/src/app.rs:1428-1433 | with an attempt put off, a poll starts it exactly when its time has come |
| Reconnect.WaitsGrow | crates/client/src/app.rs:2933-2935 | the waits start at a second, never shrink, at most double, and stay at thirty |
| Reconnect.WaitsAreBounded | crates/client/src/app.rs:104-120 | they never total more than 120 seconds, and exactly that for a whole budget |
| KeyMirror.Keyboard.OnKey | crates/client/src/app.rs:2382-2467 | keep, swallow or forward, for every input |
| KeyMirror.Keyboard.ReleaseAllKeys | crates/client/src/app.rs:2469-2476 | a release for every recorded key, and both records empty |
| KeyMirror.Keyboard.SendSecureAttention | crates/client/src/app.rs:1807-1829 | the record is restored exactly, and what is sent is the missing modifiers around Delete |
| KeyMirror.MirrorIsKept | crates/client/src/app.rs:2382-2467 | over any events on one link, the session holds nothing unrecorded, no key is recorded twice, no swallowed key listed twice |
| KeyMirror.RecordIsExact | crates/client/src/app.rs:2382-2467 | what is recorded is what is held, over every run in which no two keys are recorded alike when one moves and Delete is not recorded at secure attention |
| KeyMirror.AllReleasedHoldsNothing | crates/client/src/app.rs:2469-2476 | releasing all leaves the session holding nothing |
| KeyMirror.AttentionRestores | crates/client/src/app.rs:1796-1829 | after secure attention the session holds what it held, Delete aside |
| KeyMirror.DeleteUnderBothModifiersExactly | crates/client/src/app.rs:1811-1823 | Delete goes down with a Control held exactly when none is recorded or one is held, and with an Alt likewise |
| KeyMirror.DeleteUnderBothModifiers | crates/client/src/app.rs:1811-1823 | over those runs Delete goes down with a Control and an Alt held |
| KeyMirror.DeleteWithoutControl | crates/client/src/app.rs:1811-1823 | three key events after which Delete goes down with no Control |
| KeyMirror.PressGoesThrough | crates/client/src/app.rs:2424-2445 | a forwarded press is held and recorded as spelled, and a spelling it replaces is let go |
| KeyMirror.ReleaseAsPressed | crates/client/src/app.rs:2447-2464 | a release goes out as its press did, however it is spelled |
| KeyMirror.UnrecordedReleaseAsSpelled | crates/client/src/app.rs:2447-2464 | the release of a key not recorded goes out as it is spelled, and that spelling leaves the record and is let go of |
| KeyMirror.ForwardedExactly | crates/client/src/app.rs:2391-2430 | a key is forwarded exactly when the link is up, it is neither kept nor swallowed, and it has a spelling or a recorded press |
| KeyMirror.OneReleaseSwallowed | crates/client/src/app.rs:2396-2413 | however long an accelerator repeats, one release is swallowed, and only one |
| KeyMirror.UpLetsGoExactly | crates/client/src/app.rs:2411-2463 | a key coming up is let go of exactly when it was not both recorded and swallowed, on the record and by the session, which goes on holding its keysym only then |
| KeyMirror.RepeatOutlivesItsAccelerator | crates/client/src/app.rs:2411-2445 | three events that leave a key held with every key up |
| SelectionOwner.Owner.WriteFiles | crates/client/src/fileclip.rs:52-62 | an empty list or a path that cannot be made absolute is refused and changes nothing; otherwise the list is published |
| SelectionOwner.Owner.Publish | crates/client/src/fileclip.rs:274-296 | for each answer of the server: offered in full when the selection came, cleared when it did not, left down when the server could not be asked; it succeeds only in the first case |
| SelectionOwner.Owner.OnSelectionClear | crates/client/src/fileclip.rs:320-340 | cleared when the selection is not ours, kept when it is again or the server could not be asked, which ends the serving |
| SelectionOwner.OwningMeansOffering | crates/client/src/fileclip.rs:261-345 | whenever the list is unlocked: whatever requests fail, owning means offering the last list published; a list without the selection means a SelectionClear is coming or a request failed |
| SelectionOwner.AtRestOfferedIffOwned | crates/client/src/fileclip.rs:261-345 | with every event handled, something is offered whenever the selection is ours, and only then unless a request failed |
| SelectionOwner.FailedPublishOffersNothing | crates/client/src/fileclip.rs:289-292 | a publish that lost the selection leaves no list and no selection |
| SelectionOwner.StaleClearIsHarmless | crates/client/src/fileclip.rs:320-340 | a late SelectionClear leaves the newly published list alone |
| SelectionOwner.LockIsGivenBack | crates/client/src/fileclip.rs:274-340 | the list's lock is always given back: its holder has a step to take, and each brings that nearer, failing or not |
| SelectionOwner.PublishLeftAlone | crates/client/src/fileclip.rs:274-296 | a publish nobody interferes with owns the selection and offers the list |
| SelectionOwner.ClearLeftAlone | crates/client/src/fileclip.rs:320-340 | a SelectionClear handled takes the list down exactly when the selection is not ours |
| SelectionOwner.TakenFromUs | crates/client/src/fileclip.rs:320-322 | another program can always take the selection, and we are told exactly when it was ours |
| SelectionOwner.EndedForGood | crates/client/src/fileclip.rs:239-247 | a serving thread that got no answer has ended for good |
| Snapshot.Watcher.Requested | crates/client/src/fileclip_x11_read.rs:40-44 | the revision moves, nothing is ready, no error is left |
| Snapshot.Watcher.Answer | crates/client/src/fileclip_x11_read.rs:53-64 | the answer is published, and the revision moves when it corrects another |
| Snapshot.AnswerIsRead | crates/client/src/fileclip_x11_read.rs:53-109 | an answer reads back as given, and moves the revision exactly when an earlier one said something else |
| Snapshot.SilenceIsRead | crates/client/src/fileclip_x11_read.rs:189-221 | a refusal before an answer says there are no files, a passed deadline that nobody responded, neither anything after one |
| Snapshot.FailureIsRead | crates/client/src/fileclip_x11_read.rs:78-85 | a watcher that fails says why and offers no revision |
| Snapshot.Watcher.OnOwnerChange | crates/client/src/fileclip_x11_read.rs:181-185 | a new request goes out: the revision moves, the answer is awaited, the deadline is set |
| Snapshot.Watcher.OnDeadline | crates/client/src/fileclip_x11_read.rs:215-221 | an armed deadline publishes that the owner did not respond |
| Snapshot.Watcher.FileCounter | crates/client/src/fileclip_x11_read.rs:96-99 | the revision, from a watcher that still works |
| Snapshot.Watcher.ReadFiles | crates/client/src/fileclip_x11_read.rs:100-109 | the error or the list once there is one, until then nothing |
| Snapshot.Watcher.OnReply | crates/client/src/fileclip_x11_read.rs:186-211 | a refusal counts only before an answer, a named answer only in the latest property |
| Snapshot.StaleIsTakenExactly | crates/client/src/fileclip_x11_read.rs:168-203 | in any state, ready or not, an earlier request's answer is published exactly when a whole number of rings came after it, and otherwise changes nothing |
| Snapshot.RevisionMovesExactly | crates/client/src/fileclip_x11_read.rs:46-64 | in every run an answer moves the revision exactly when another was there and said something else |
| Snapshot.TimelyAnswersAreLatest | crates/client/src/fileclip_x11_read.rs:18-27 | within a ringful, only the latest request's answer is taken |
| Snapshot.RingfulIsTooLate | crates/client/src/fileclip_x11_read.rs:18-27 | eight owner changes later the first request's answer is published |
| Snapshot.StoredMeansConsumed | crates/client/src/app.rs:2205-2275 | a viewer whose stored revision is current, and was stored by a read, has consumed the current outcome |
| Snapshot.ConsumedExactlyIfRead | crates/client/src/app.rs:2017-2036 | in every reachable state with nothing new by revision, the outcome is sure to be consumed, in all reachable states that look the same to the viewer, if and only if a read stored that revision |
| Snapshot.MarkIsSafeExactly | crates/client/src/app.rs:2017-2037 | storing the revision after publishing is safe, in all reachable states that look the same to the viewer, exactly when the watcher has failed or a read had stored that very revision |
| Snapshot.UnreadAnswerIsMissed | crates/client/src/app.rs:2017-2036 | an answer that comes after such a store is not read unless it says what was consumed last |
| Snapshot.MarkedCopyIsMissed | crates/client/src/app.rs:2017-2036 | a run where another program's copy is never read |
| Snapshot.TwoReadsCatchUp | crates/client/src/app.rs:2205-2219 | two undisturbed reads bring a viewer up to date exactly when the revision is not the one stored, or a read stored it, or it holds that outcome anyway |
| Snapshot.ReadTakesExactly | crates/client/src/app.rs:2212-2219 | a read stores the revision read before it, with what it read, exactly when the snapshot is ready; otherwise nothing |
| Snapshot.ForgettingReadsAgain | crates/client/src/app.rs:1331-1336 | after the link went down a ready snapshot is read again, whatever was stored |
| Snapshot.PublishedExactly | crates/client/src/app.rs:2021-2033 | files are put on the clipboard exactly when it takes them and its revision is the one seen when they came, or one of the two is not known |
| Snapshot.CopyMeanwhileIsKept | crates/client/src/app.rs:2017-2024 | so a copy made meanwhile is never overwritten while the watcher works |
| Snapshot.NeverLeftWaiting | crates/client/src/fileclip_x11_read.rs:215-221 | a snapshot without an answer has its deadline set |
| Snapshot.PublishedIsLatest | crates/client/src/fileclip_x11_read.rs:168-222 | while answers are timely, a published answer is the latest request's |
| Snapshot.AnswerStands | crates/client/src/fileclip_x11_read.rs:186-221 | no refusal and no deadline replaces a published answer |
| Rejection.PrintedReadsBack | crates/client/src/connection.rs:245-256 | a printed number reads back, with a `+` or without, exactly when it has sixteen bits |
| Rejection.OnlyDigitsAreRead | crates/client/src/connection.rs:250-256 | nothing else is read as a number |
| Rejection.CodeReadsBack | crates/client/src/connection.rs:245-256 | the code is read back from the text for every code and reason |
| Rejection.MarkDoesNotOverlap | crates/client/src/connection.rs:233 | no occurrence of the mark starts inside another |
| Rejection.SearchIsComplete | crates/client/src/connection.rs:273-276 | the search over occurrences that do not overlap finds a rejection exactly when one starts anywhere |
| Rejection.FatalExactly | crates/client/src/app.rs:287-301 | a reason is fatal exactly when a rejection or a fatal phrase, in any case, is in it |
| Rejection.CaseDoesNotMatter | crates/client/src/app.rs:293-301 | reasons that differ in ASCII case only have the same fate, unless one alone mentions a rejection |
| Rejection.PhraseIsFatal | crates/client/src/app.rs:293-301 | a fatal phrase in any case is fatal whatever stands around it |
| Rejection.WrappedRejectionIsFatal | crates/client/src/app.rs:267-301 | under any context a rejection is recognised and never retried |
| ShellJoin.QuoteReadsBack | crates/client/src/launcher.rs:380-388 | a quoted argument is read as one word, whatever follows |
| ShellJoin.JoinReadsBack | crates/client/src/launcher.rs:377-392 | for every list of strings the shell reads back exactly the arguments |
| ShellJoin.JoinIsInjective | crates/client/src/launcher.rs:366-392 | no two lists share a line |
| ShellJoin.CommonStaysBare | crates/client/src/launcher.rs:377-392 | arguments of letters, digits and common punctuation are shown as they are, with one space between |

## Left out

- The bar and the GUI are taken as layers that paint inside the bounds they report; their
  drawing, layout and dwell times are not part of this model.
- The decoder is taken as changing framebuffer pixels only inside its dirty rectangle, and
  only while the framebuffer keeps its size; every other change owes a full repaint.
- Width limits of `u32` and `i64` in coordinates and indices: only the saturation in
  `scale_rect` is written out; `right`, `bottom` and buffer indices are unbounded.
- A pixel word is kept as its four bytes; `WordsArePixels` is the tie to the word.
- The scratch row of `blit_rect_scaled` is allocated per call here, reused in the source.
- Rounding of 32-bit floats in the rasteriser: reals are exact here.
- Triangles.ReferenceTriangle: walks the bounding box through the shared row loop, not two
  loops of its own.
- Outbound.StepKeeps: the whole of `send` and the worker are interleaved steps on values, so
  update in place and sharing are not captured there; only `reserve` keeps its loop.
- Backlog.StepKeeps: the reader's loop and the drain are steps on values for the same reason;
  the monitor's critical sections keep their object.
- SelectionOwner.Owner.Publish: takes the server's answer as a parameter; the race for that
  answer is in the state machine, failing requests included.
- SelectionOwner.Owner.OnSelectionClear: the question to the server is a parameter likewise;
  the new owner started once serving has ended is not part of this model.
- SelectionOwner.Owner.WriteFiles: the absolute paths, or that there are none, are a parameter.
- Snapshot.Watcher.OnReply: a reply carries its request's number; reading the property and
  parsing its text are not part of this model, nor is a watcher thread that never starts.
- Answering a paste: under the list's lock it reads what the invariant says is there.
- Revisions and byte counts do not wrap around.
- Clocks: deadlines, the network budget, the close grace and the liveness limit are steps
  that may happen at any time.
- Which keys are accelerators and which keysym a key has are inputs; keymap tables are not
  part of this model, nor are pointer buttons and wheel carry.
- What the shell does with unquoted operators, expansions and patterns: the reader of
  `ShellJoin` gives up on them, and no quoted argument leaves one.
- Transfers, profiles, tunnels, themes, the updater, the launcher's windows, staging
  directories and the other platforms' clipboards.
