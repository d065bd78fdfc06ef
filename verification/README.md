# ssd1306 graphics engine and power metering: verified model

The repository embeds the ssd1306 graphics component in a small power-metering pipeline. Its drawing routines work a
byte at a time: pages are shifted, masked, clipped, tiled, write-combined and streamed. This project states what each
drawing call means pixel by pixel and proves that the routines do exactly that, up to the screen of an SSD1306
controller. Where a routine departs from its pixel meaning, the model keeps the behaviour and proves the exact
condition under which it agrees.

- `Bits`, `Drawing`, `Lines`: bytes as eight vertical pixels, the per-pixel meaning of every drawing call, and the
  error-accumulator line.
- `Canvas1`, `Blit`, `Xbm`, `CanvasRgb`: the 1-bit canvas over a byte array, the page-shift blit, the XBM blit, and the
  8-bit and 16-bit canvases.
- `Scenes`, `Tiles`, `Runs`: lists of calls, dirty-tile bitmaps and partial refresh, sprites, and whole runs.
- `Display`, `Raster`, `Combiner`, `Text`: the controller's address window and byte protocol (sections 10.1.3 to 10.1.5
  of the SSD1306 datasheet), the blits, write-combined lines, and scaled text.
- `Utf8`, `Fonts`, `SpiCache`, `InitProgram`, `SpiLink`: the UTF-8 decoder against section 3 of RFC 3629, serialised font
  tables, the SPI cache, the interpreter of initialisation programs, and the controller behind the cache.
- `Meter`, `Menu`: the energy integrator, the lossy link and the exported counter; the scrolling menu.

Routines that change state are classes and methods proved against functions of the old state; the properties are lemmas
about those functions. A long C function appears as several methods, one for each loop nest.

What the proofs show about the code beyond its documentation:

- A line whose extents are equal misses both of its end points (canvas.cpp:96-99).
- The 1-bit blit of an opaque black bitmap lights pixels outside the bitmap unless it covers whole pages
  (canvas.cpp:402), and a height that is not a multiple of 8 is drawn wrongly except in two clipped cases.
- XBM rows step wrongly for some bitmaps cropped on both sides (canvas.cpp:455).
- TILE_32x32_MONO marks cells of 16 pixels and displays tiles of 32 (tiler.h:52), so marks past column 16 or row 16 can
  be lost.
- Updating a menu leaves another screen than showing it when a label that is not the last is longer than a line.
- A callback of the tiler that returns false loses the update of its tile.
- The decoder splits code points above 0x7FF into two or more characters, but always returns to idle.
- `__ssd1306_newFormatGetBitmap` tests a glyph pointer that its callers leave uninitialised (ssd1306_generic.c:296,
  :388), so text with a character that the font does not have can be measured wrongly.
- On the SPI back end an initialisation delay passes while the command before it is still in the cache.

## Model

| member | source | states |
|---|---|---|
| Lines.LineAccuracy | esp32-powermeter-udp-server/components/ssd1306/src/nano_engine/canvas.cpp:63-104 | A line is a walk of max(dx, dy) + 1 eight-neighbours from one end to the other, no point a whole pixel away from the segment, if and only if its two extents differ (with equal extents, a single point included, it misses both ends) |
| Lines.AccumulatorStep | esp32-powermeter-udp-server/components/ssd1306/src/nano_engine/canvas.cpp:75-100 | The error accumulator wraps exactly when floor((k+1) * minor / major) grows, and holds k * minor modulo major |
| Lines.LineSwap | esp32-powermeter-udp-server/components/ssd1306/src/nano_engine/canvas.cpp:69-95 | A line drawn from either end has the same points |
| Lines.ShallowLine | esp32-powermeter-udp-server/components/ssd1306/src/nano_engine/canvas.cpp:87-103 | A line wider than high lights in column x exactly the pixel whose row is d away from the left end, where d * dx <= (x - x1 + 1) * dy < (d + 1) * dx |
| Lines.SteepLine | esp32-powermeter-udp-server/components/ssd1306/src/nano_engine/canvas.cpp:69-86 | A line higher than wide lights in row y exactly the pixel whose column is d away from the upper end, where d * dy <= (y - y1 + 1) * dx < (d + 1) * dy |
| Lines.DiagonalLine | esp32-powermeter-udp-server/components/ssd1306/src/nano_engine/canvas.cpp:87-103 | A line as wide as high runs one step ahead of its diagonal, and its last column takes the pixel above the end point |
| Drawing.StraightInk | esp32-powermeter-udp-server/components/ssd1306/src/nano_engine/canvas.cpp:211-341 | Points, rows, columns and rectangles ink exactly the pixels between their ends, both included, in either order |
| Drawing.BitmapInk | esp32-powermeter-udp-server/components/ssd1306/src/nano_engine/canvas.cpp:350-417 | Pixel (i, j) of a page-packed bitmap is bit j % 8 of byte j / 8 * w + i; nothing outside the bitmap is inked |
| Drawing.XBitmapInk | esp32-powermeter-udp-server/components/ssd1306/src/nano_engine/canvas.cpp:419-490 | Pixel (i, j) of an XBM bitmap is bit i % 8 of byte j * ((w + 7) / 8) + i / 8; nothing outside the bitmap is inked |
| Drawing.BitInkIs | esp32-powermeter-udp-server/components/ssd1306/src/nano_engine/canvas.cpp:399-410 | A set bit gives the pen value; a clear one leaves the pixel alone under a transparent pen and gives it the opposite under an opaque one |
| Canvas1.Canvas.constructor | esp32-powermeter-udp-server/components/ssd1306/src/nano_engine/canvas.cpp:493-508 | A new canvas is cleared, at offset (0, 0), opaque, with a lit pen |
| Canvas1.Canvas.PutPixel | esp32-powermeter-udp-server/components/ssd1306/src/nano_engine/canvas.cpp:211-226 | Exactly the given pixel of the canvas, if it is on it, takes the pen value; every other bit stays |
| Canvas1.Canvas.DrawHLine | esp32-powermeter-udp-server/components/ssd1306/src/nano_engine/canvas.cpp:228-249 | Exactly the pixels of the row between the two ends, in either order, offset and clipped, take the pen value |
| Canvas1.Canvas.DrawVLine | esp32-powermeter-udp-server/components/ssd1306/src/nano_engine/canvas.cpp:251-295 | The edge masks of the first and last bank set or clear exactly the pixels of the column between the two ends, in either order, offset and clipped |
| Canvas1.Canvas.FillRect | esp32-powermeter-udp-server/components/ssd1306/src/nano_engine/canvas.cpp:297-341 | Terminates and gives exactly the pixels of the clipped rectangle the pen value, provided the clipped right edge stays below column 255 |
| Canvas1.ColumnLoopEnds | esp32-powermeter-udp-server/components/ssd1306/src/nano_engine/canvas.cpp:329-339 | The column counter passes the right edge after some number of steps if and only if that edge is left of column 255 |
| Canvas1.Canvas.DrawLine | esp32-powermeter-udp-server/components/ssd1306/src/nano_engine/canvas.cpp:62-104 | For all end points, exactly the points of the line that lie on the canvas take the pen value; which points these are, Lines.ShallowLine, Lines.SteepLine and Lines.DiagonalLine say |
| Canvas1.Canvas.Clear | esp32-powermeter-udp-server/components/ssd1306/src/nano_engine/canvas.cpp:343-347 | Every pixel is cleared |
| Canvas1.Canvas.DrawBitmap1 | esp32-powermeter-udp-server/components/ssd1306/src/nano_engine/canvas.cpp:350-417 | For every position, height and mode: reads only inside the bitmap, and changes each pixel exactly as the page-shift description says, the unmasked writes of an opaque black pen included |
| Canvas1.Canvas.BlitPage | esp32-powermeter-udp-server/components/ssd1306/src/nano_engine/canvas.cpp:393-413 | One page of the blit: each destination byte combines two shifted source bytes under the shifted mask |
| Canvas1.Canvas.DrawXBitmap1 | esp32-powermeter-udp-server/components/ssd1306/src/nano_engine/canvas.cpp:419-490 | For every position, size and mode: each visible pixel takes the bit that the row-advance arithmetic reaches, whether or not that bit belongs to the bitmap |
| Canvas1.Canvas.Draw | esp32-powermeter-udp-server/components/ssd1306/src/nano_engine/canvas.cpp:211-490 | Every supported call changes the canvas by exactly its per-pixel meaning at the canvas offset, under the pen in force; a SetPen puts its pen in force and no other call changes the pen |
| Canvas1.Canvas.Play | esp32-powermeter-udp-server/components/ssd1306/src/nano_engine/canvas.cpp:62-490 | A list of calls changes each canvas pixel as the same list of per-pixel meanings does, each under the pen chosen last before it (Scenes.LastCallWins) |
| Canvas1.Canvas.Paint | esp32-powermeter-udp-server/components/ssd1306/src/nano_engine/tiler.h:314-321 | A callback that clears and paints a scene leaves on the canvas the part of the picture at the canvas offset, whatever was there |
| Canvas1.SourceBounds | esp32-powermeter-udp-server/components/ssd1306/src/nano_engine/canvas.cpp:363-416 | Every byte the blit reads for a page lies inside the source bitmap |
| Blit.BlitMeansBitmap | esp32-powermeter-udp-server/components/ssd1306/src/nano_engine/canvas.cpp:350-417 | The page-shift blit has its per-pixel meaning for all bitmaps if and only if the height fits the position (a multiple of 8, or one of two clipped cases) and an opaque black bitmap covers whole pages |
| Blit.ExactSuffices | esp32-powermeter-udp-server/components/ssd1306/src/nano_engine/canvas.cpp:350-417 | Under that condition every canvas pixel gets the bitmap bit of the call |
| Blit.ExactNecessary | esp32-powermeter-udp-server/components/ssd1306/src/nano_engine/canvas.cpp:389-402 | Without that condition a fully set bitmap already draws a wrong pixel |
| Blit.UnalignedFails | esp32-powermeter-udp-server/components/ssd1306/src/nano_engine/canvas.cpp:389-402 | Two concrete failing calls: an opaque black 8 by 8 bitmap at row 3, and an 8 by 4 bitmap at row 4 in any mode |
| Blit.UnalignedPixels | esp32-powermeter-udp-server/components/ssd1306/src/nano_engine/canvas.cpp:389-410 | What those two calls draw: the first also lights rows 0 to 2 and 11 to 15 of its pages, the second nothing, or its whole page when opaque and black |
| Blit.MaskedRowsAreSourceRows | esp32-powermeter-udp-server/components/ssd1306/src/nano_engine/canvas.cpp:376-398 | When the height fits, the rows the page loop masks in are exactly the visible rows of the bitmap |
| Blit.BlendBit | esp32-powermeter-udp-server/components/ssd1306/src/nano_engine/canvas.cpp:397-410 | Each bit of a stored byte is the source bit, the old bit, or the stray bit of an opaque black pen |
| Xbm.XbmMeansBitmap | esp32-powermeter-udp-server/components/ssd1306/src/nano_engine/canvas.cpp:432-490 | The XBM blit draws bit (i, j) at (x+i, y+j) for every visible pixel of all bitmaps if and only if rows step correctly |
| Xbm.OneSidedCropSteps | esp32-powermeter-udp-server/components/ssd1306/src/nano_engine/canvas.cpp:440-455 | Rows step correctly whenever the bitmap is not cropped on both sides, or is cropped on the left by whole bytes |
| Xbm.StepsIsAdvance | esp32-powermeter-udp-server/components/ssd1306/src/nano_engine/canvas.cpp:455-489 | Stepping correctly means that bytes walked plus pitch delta are ceil(width / 8), or that there is only one row |
| Xbm.StepsNecessary | esp32-powermeter-udp-server/components/ssd1306/src/nano_engine/canvas.cpp:455-489 | With a wrong step some bitmap is drawn wrongly in its second visible row |
| Xbm.CroppedTwiceFails | esp32-powermeter-udp-server/components/ssd1306/src/nano_engine/canvas.cpp:440-489 | A concrete failing call: 16 by 2 at (-1, 0) on a canvas of 8 by 8 |
| Xbm.CroppedTwicePixels | esp32-powermeter-udp-server/components/ssd1306/src/nano_engine/canvas.cpp:440-489 | What that call draws in its second row: the bits of byte 3, where those of byte 2 belong |
| CanvasRgb.Canvas.constructor | esp32-powermeter-udp-server/components/ssd1306/src/nano_engine/canvas.cpp:1098-1110 | A new colour canvas is cleared, at offset (0, 0) and opaque |
| CanvasRgb.Canvas.SetColor | esp32-powermeter-udp-server/components/ssd1306/src/nano_engine/canvas.h:310-313 | The high byte of the colour is stored first |
| CanvasRgb.Canvas.StoreBytes | esp32-powermeter-udp-server/components/ssd1306/src/nano_engine/canvas.cpp:1153-1156 | Exactly the one or two bytes of the pixel change, on 16-bit canvases the high byte before the low one |
| CanvasRgb.PixelBytes | esp32-powermeter-udp-server/components/ssd1306/src/nano_engine/canvas.cpp:1153-1156 | A pixel is byte y * w + x, or bytes 2 * (y * w + x) and the one after it with the high byte first; cleared pixels are zero bytes |
| CanvasRgb.Canvas.PutPixel | esp32-powermeter-udp-server/components/ssd1306/src/nano_engine/canvas.cpp:832-841 | Exactly the given pixel takes the stored colour, one byte or two |
| CanvasRgb.Canvas.FillRect | esp32-powermeter-udp-server/components/ssd1306/src/nano_engine/canvas.cpp:888-919 | Exactly the clipped rectangle takes the stored colour |
| CanvasRgb.Canvas.DrawBitmap1 | esp32-powermeter-udp-server/components/ssd1306/src/nano_engine/canvas.cpp:921-976 | Any height, any position: exactly the clipped source pixels are tinted, although the first pass writes rows beyond its byte |
| CanvasRgb.Canvas.BitmapClipped | esp32-powermeter-udp-server/components/ssd1306/src/nano_engine/canvas.cpp:1241-1301 | The same on 16-bit pixels: rows written too early are overwritten by the next pass when opaque and untouched when transparent |
| CanvasRgb.Canvas.DrawXBitmap1 | esp32-powermeter-udp-server/components/ssd1306/src/nano_engine/canvas.cpp:978-1042 | For every position, size and mode each visible pixel is tinted by the bit that the row-advance arithmetic reaches |
| CanvasRgb.Canvas.XbmLoop | esp32-powermeter-udp-server/components/ssd1306/src/nano_engine/canvas.cpp:1303-1369 | The row loop on pixels of one or two bytes, every row advanced by the bytes walked plus the pitch delta |
| Scenes.TileAgrees | esp32-powermeter-udp-server/components/ssd1306/src/nano_engine/tiler.h:314-318 | Calls played on a tile canvas with its offset leave the pixels that the same calls leave there on the whole screen |
| Scenes.TilesAssemble | esp32-powermeter-udp-server/components/ssd1306/src/nano_engine/tiler.h:308-325 | Clipping commutes with tiling: the same calls played on the screen and on each tile that covers it leave the screen in the assembled tiles, whatever was drawn before |
| Scenes.LastCallWins | esp32-powermeter-udp-server/components/ssd1306/src/nano_engine/canvas.h:307-313 | The value a list of calls leaves at a pixel is that of its last call there under the pen chosen last before that call, or the first pen when none was chosen; otherwise what was there |
| Scenes.LastCallInPicture | esp32-powermeter-udp-server/components/ssd1306/src/nano_engine/tiler.h:314-321 | A picture begins dark, and choosing a pen in front of a call colours that call whatever the pen was before |
| Tiles.PaintTiled | esp32-powermeter-udp-server/components/ssd1306/src/nano_engine/tiler.h:308-325 | A supported scene painted on a display-sized canvas and on one tile canvas at every offset: the tiles show the canvas |
| Scenes.TileableIsSupported | esp32-powermeter-udp-server/components/ssd1306/src/nano_engine/canvas.cpp:350-490 | Whole-page bitmaps that are not opaque black, byte-aligned XBM bitmaps and all other calls are drawn faithfully by every tile |
| Tiles.MarkCovers | esp32-powermeter-udp-server/components/ssd1306/src/nano_engine/tiler.h:134-148 | Marking a rectangle sets the flag of the tile of each of its on-screen pixels |
| Tiles.MarkIsExact | esp32-powermeter-udp-server/components/ssd1306/src/nano_engine/tiler.h:134-148 | And no more: a rectangle sets exactly the flags of the cells that hold one of its pixels, as far as the 512 rows of the flags reach |
| Tiles.Tiler.Refresh | esp32-powermeter-udp-server/components/ssd1306/src/nano_engine/tiler.h:105-108 | All tiles are marked |
| Tiles.Tiler.RefreshRect | esp32-powermeter-udp-server/components/ssd1306/src/nano_engine/tiler.h:134-148 | Exactly the flags of the clipped rectangle are added to those already set |
| Tiles.Tiler.RefreshWorld | esp32-powermeter-udp-server/components/ssd1306/src/nano_engine/tiler.h:165-168 | The same for a rectangle in world coordinates |
| Tiles.Tiler.MoveToAndRefresh | esp32-powermeter-udp-server/components/ssd1306/src/nano_engine/tiler.h:211-215 | The view moves and all tiles are marked |
| Tiles.Tiler.DisplayBuffer | esp32-powermeter-udp-server/components/ssd1306/src/nano_engine/tiler.h:300-326 | For any tile and cell size: exactly the tiles whose flag is read as set and for which the callback returns true show the scene afterwards, every other pixel is as before, and exactly the rows of flags that were read are cleared |
| Tiles.Tiler.ShowTile | esp32-powermeter-udp-server/components/ssd1306/src/nano_engine/tiler.h:316-321 | One tile drawn through the small canvas changes exactly its own rectangle, and only when the callback returns true |
| Tiles.Tiler.Blt | esp32-powermeter-udp-server/components/ssd1306/src/nano_engine/canvas.cpp:517-520 | The canvas is copied to the display at its offset and nothing else changes |
| Tiles.TileableScene | esp32-powermeter-udp-server/components/ssd1306/src/nano_engine/tiler.h:308-325 | Such a scene is drawn faithfully by every tile wherever the view has moved |
| Tiles.MarksAreRedrawn | esp32-powermeter-udp-server/components/ssd1306/src/nano_engine/tiler.h:48-52 | Every marked pixel is redrawn, for all flags, if and only if tiles and cells agree in both directions: the same width or no column past the narrower, and the same height or no row past the lower |
| Tiles.MarksAgree | esp32-powermeter-udp-server/components/ssd1306/src/nano_engine/tiler.h:134-148 | With agreeing tiles and cells exactly the marked pixels are redrawn |
| Tiles.StaleRow | esp32-powermeter-udp-server/components/ssd1306/src/nano_engine/tiler.h:308-312 | With other heights a single mark is lost: it is in a row of flags that is not read for its tile, or was read and cleared for the tiles above |
| Tiles.StaleColumn | esp32-powermeter-udp-server/components/ssd1306/src/nano_engine/tiler.h:312-323 | With other widths a single mark is lost to another column of tiles |
| Tiles.Tile32GoesStale | esp32-powermeter-udp-server/components/ssd1306/src/nano_engine/tiler.h:52 | TILE_32x32_MONO on a 128 by 64 display: the lone marks of pixels (20, 0) and (0, 20) are lost |
| Tiles.NextRowCleared | esp32-powermeter-udp-server/components/ssd1306/src/nano_engine/tiler.h:308-312 | A row of flags has its old value when the first row of tiles reads it, and is clear for any later one |
| Runs.StepKeepsInv | esp32-powermeter-udp-server/components/ssd1306/src/nano_engine/tiler.h:105-326 | Every step keeps: a pixel that does not show the scene lies in a marked tile; after displaying, all pixels show it |
| Runs.PartialRefreshIsFullRedraw | esp32-powermeter-udp-server/components/ssd1306/src/nano_engine/tiler.h:105-326 | In every run in which changed pixels are marked and the callback returns true, on agreeing tiles and cells, the screen after each display equals the full picture of the scene |
| Runs.RefusedTileGoesStale | esp32-powermeter-udp-server/components/ssd1306/src/nano_engine/tiler.h:310-322 | A callback that returns false loses the update: the tile keeps its pixels and its mark is gone |
| Runs.SpriteChanges | esp32-powermeter-udp-server/components/ssd1306/src/nano_engine/sprite.h:186-189 | Moving a bitmap call changes the picture only inside its old and new rectangles |
| Runs.FixedSprite.Refresh | esp32-powermeter-udp-server/components/ssd1306/src/nano_engine/sprite.h:194-198 | The tiles of the sprite rectangle, in world coordinates, are marked |
| Runs.FixedSprite.MoveTo | esp32-powermeter-udp-server/components/ssd1306/src/nano_engine/sprite.h:203-208 | The sprite moves, and every on-screen pixel of its old and new rectangle is marked |
| Runs.FixedSprite.MoveBy | esp32-powermeter-udp-server/components/ssd1306/src/nano_engine/sprite.h:213-218 | The same for a relative move |
| Runs.Stage.MoveSprite | esp32-powermeter-udp-server/components/ssd1306/src/nano_engine/sprite.h:203-208 | Moving a sprite of the scene is a step that marks every changed pixel |
| Runs.Stage.DisplayBuffer | esp32-powermeter-udp-server/components/ssd1306/src/nano_engine/tiler.h:300-326 | Displaying is a step of the run model |
| Display.StreamFills | esp32-powermeter-udp-server/components/ssd1306/src/lcd/oled_ssd1306.c:86-107 | Bytes streamed into a window in horizontal addressing fill it row by row; byte k lands in page k / width, column k mod width |
| Display.Driver.SetBlock | esp32-powermeter-udp-server/components/ssd1306/src/lcd/oled_ssd1306.c:86-113 | Over SPI or I2C: the bytes sent are the two addressing commands with the first and last column and page, between control bytes on I2C, and leave the controller with exactly the requested window, its pointer at the start, ready for data |
| Display.Driver.DrawBufferFast | esp32-powermeter-udp-server/components/ssd1306/src/ssd1306_1bit.c:725-736 | The controller receives the first w * (h / 8) bytes of the buffer in order, after the block is set |
| Display.BlitLands | esp32-powermeter-udp-server/components/ssd1306/src/ssd1306_1bit.c:725-736 | For any in-range block, byte j * w + i is stored at page y / 8 + j, column x + i, and nothing anywhere else |
| Display.BlitShows | esp32-powermeter-udp-server/components/ssd1306/src/ssd1306_1bit.c:725-736 | The same for pixels when the block covers whole pages |
| Raster.DrawMonoBuffer8 | esp32-powermeter-udp-server/components/ssd1306/src/ssd1306_8bit.c:59-88 | The page-packed buffer is streamed as its pixels in raster order, in the two display colours |
| Raster.BlitsAgree | esp32-powermeter-udp-server/components/ssd1306/src/ssd1306_8bit.c:59-88 | What the page blit lights on a monochrome display is what the raster stream colours on a colour display |
| Combiner.Combiner.PutPixels | esp32-powermeter-udp-server/components/ssd1306/src/ssd1306_1bit.c:612-617 | Exactly the byte at column x of page y / 8 is replaced by the pixels, or by their complement when the display is inverted |
| Combiner.Combiner.PutPixel | esp32-powermeter-udp-server/components/ssd1306/src/ssd1306_1bit.c:605-610 | One byte of display memory is replaced by a single pixel |
| Combiner.Combiner.PutPixelDelayed | esp32-powermeter-udp-server/components/ssd1306/src/ssd1306_1bit.c:619-637 | The pending byte is written exactly when the pixel lies in another byte or the run is closed; otherwise it grows |
| Combiner.SteepRuns | esp32-powermeter-udp-server/components/ssd1306/src/ssd1306_1bit.c:651-660 | Points of a steep line that share a byte are consecutive, so no byte is started twice |
| Combiner.ShallowRuns | esp32-powermeter-udp-server/components/ssd1306/src/ssd1306_1bit.c:671-680 | Points of a line that is not steep never share a byte |
| Combiner.Combiner.DrawLine | esp32-powermeter-udp-server/components/ssd1306/src/ssd1306_1bit.c:639-681 | From an empty combiner, display memory holds exactly the path's bits in every byte it touches, other bytes are as before, and the combiner ends empty; Combiner.LinePixels says the same pixel by pixel |
| Combiner.EndsInside | esp32-powermeter-udp-server/components/ssd1306/src/ssd1306_1bit.c:639-681 | A line between two points of the display with different extents stays on it |
| Combiner.LinePixels | esp32-powermeter-udp-server/components/ssd1306/src/ssd1306_1bit.c:639-681 | After a line each pixel on it is lit (dark when inverted), the other pixels of the bytes it passes through are the opposite, and no other pixel changes |
| Text.ScaledBit | esp32-powermeter-udp-server/components/ssd1306/src/ssd1306_1bit.c:385-399 | Bit k of the widened byte of page po is glyph row (8 * po + k) / scale |
| Text.Printer.PrintFixedN | esp32-powermeter-udp-server/components/ssd1306/src/ssd1306_1bit.c:317-416 | Terminates; display memory holds, in every page of every text line, the bytes of the expected layout at the scale 1, 2, 4 or 8 and nothing else (Text.TextShown says which pixels these are); returns the number of characters printed, all of them or as many full lines as begin on the display |
| Text.Printer.Scaled | esp32-powermeter-udp-server/components/ssd1306/src/ssd1306_1bit.c:385-399 | The widening loop computes the scaled byte |
| Text.PageFinished | esp32-powermeter-udp-server/components/ssd1306/src/ssd1306_1bit.c:328-352 | A page whose line is full or whose text is used up holds all and only the columns of its line |
| Text.TextPixel | esp32-powermeter-udp-server/components/ssd1306/src/ssd1306_1bit.c:317-416 | Pixel by pixel: each shows the glyph bit at row / scale, column / scale of the character that stands there when lines break after the same number of characters on all their pages |
| Text.GlyphColumns | esp32-powermeter-udp-server/components/ssd1306/src/ssd1306_generic.c:142-147 | In a table that is its glyphs one after the other, each page by page, column c of page p of a printed character ch is glyphs[ch - offset][p][c], and the font has exactly the characters of its glyphs |
| Text.TextShown | esp32-powermeter-udp-server/components/ssd1306/src/ssd1306_1bit.c:317-416 | The whole display after printing: pixel (x, y) is bit row % 8 of glyphs[character - offset][row / 8][column], where character, row and column are given by numbers alone, inverted when the display is; every other pixel is as before |
| Utf8.Decoder.Decode | esp32-powermeter-udp-server/components/ssd1306/src/ssd1306_generic.c:98-118 | One byte moves the decoder between idle and one pending lead byte |
| Utf8.FeedAll | esp32-powermeter-udp-server/components/ssd1306/src/ssd1306_generic.c:98-118 | Text encoded by section 3 of RFC 3629 leaves the decoder idle, with at least one character per code point |
| Utf8.RoundTrip | esp32-powermeter-udp-server/components/ssd1306/src/ssd1306_generic.c:98-118 | Decoding undoes encoding if and only if every code point fits into two bytes |
| Utf8.TwoByteOrder | esp32-powermeter-udp-server/components/ssd1306/src/ssd1306_generic.c:98-118 | The encodings that the decoder undoes are one byte or the pairs from C2 80 to DF BF, in the order of their code points |
| Utf8.EncodeExamples | esp32-powermeter-udp-server/components/ssd1306/src/ssd1306_generic.c:98-118 | The encoding gives the examples of section 7 of RFC 3629 |
| Utf8.SizeOfMore | esp32-powermeter-udp-server/components/ssd1306/src/ssd1306_generic.c:372-395 | One more character adds its width and spacing to the text size and sets the height |
| Utf8.GetTextSize | esp32-powermeter-udp-server/components/ssd1306/src/ssd1306_generic.c:372-395 | For any lookup and any content of the uninitialised structures, the loop computes the width sum and the last height up to the first terminator or line break, and the decoder state it leaves |
| Utf8.TextSize | esp32-powermeter-udp-server/components/ssd1306/src/ssd1306_generic.c:372-395 | Whatever the uninitialised structures hold, encoded text measures as the sum of its characters' widths and spacings up to its first line break, if and only if the font has all of these |
| Fonts.TableAt | esp32-powermeter-udp-server/components/ssd1306/src/ssd1306_generic.c:74-79 | Each block of a serialised table lies at its start, and the next begins after it |
| Fonts.SearchCharGlyph | esp32-powermeter-udp-server/components/ssd1306/src/ssd1306_generic.c:149-176 | Terminates and returns the glyph of the first block that has the character, or none |
| Fonts.FixedGlyphBytes | esp32-powermeter-udp-server/components/ssd1306/src/ssd1306_generic.c:149-176 | The position returned holds the bytes from (code - start) * size on of the block's glyphs |
| Fonts.GetBitmap | esp32-powermeter-udp-server/components/ssd1306/src/ssd1306_generic.c:250-303 | Over primary then secondary table the walk terminates and returns width, height, spacing and glyph position of the first block with the character, else the blank when the glyph pointer was null, else the structure unchanged |
| Fonts.GlyphBytes | esp32-powermeter-udp-server/components/ssd1306/src/ssd1306_generic.c:284-293 | The structure holds the glyph's width and height, a spacing of 1 or, for empty glyphs, half the font's width, and a pointer that leads to the glyph's bytes in its block's bitmap |
| Fonts.AnswerIs | esp32-powermeter-udp-server/components/ssd1306/src/ssd1306_generic.c:250-303 | The answer is that of the primary table if it has the character, else of the secondary one, else an empty glyph with half the font's width as spacing |
| Fonts.SerialisedExample | esp32-powermeter-udp-server/components/ssd1306/src/ssd1306_generic.c:74-79 | A block of two glyphs of their own size, byte for byte |
| Fonts.FoundInFont | esp32-powermeter-udp-server/components/ssd1306/src/ssd1306_generic.c:256-282 | The walk finds a character if and only if some block of the primary table, or of a secondary table beside it, has it |
| Fonts.AnswerNeedsCharacter | esp32-powermeter-udp-server/components/ssd1306/src/ssd1306_generic.c:295-301 | The answer is right whatever the structure held before if and only if some block of the tables has the character; with a null pointer it always is |
| SpiCache.Bus.SendCache | esp32-powermeter-udp-server/components/ssd1306/src/ssd1306_hal/esp/platform.c:175-196 | All queued bytes go out in order under the current level in transactions of exactly 32 bytes and a last one of at most 32, and the cache is empty |
| SpiCache.Bus.Start | esp32-powermeter-udp-server/components/ssd1306/src/ssd1306_hal/esp/platform.c:198-214 | Whatever is queued is dropped |
| SpiCache.Bus.Send | esp32-powermeter-udp-server/components/ssd1306/src/ssd1306_hal/esp/platform.c:223-231 | A byte is queued, and a full cache of 1024 bytes is sent |
| SpiCache.Bus.DigitalWrite | esp32-powermeter-udp-server/components/ssd1306/src/ssd1306_hal/esp/platform.c:47-56 | Writing the data/command pin first sends what is queued under the old level; other pins do nothing |
| SpiCache.Bus.DataMode | esp32-powermeter-udp-server/components/ssd1306/src/intf/spi/ssd1306_spi.c:50-56 | The level changes only when a data/command pin is set |
| SpiCache.Bus.Stop | esp32-powermeter-udp-server/components/ssd1306/src/ssd1306_hal/esp/platform.c:216-221 | Everything queued is sent |
| SpiCache.NothingLost | esp32-powermeter-udp-server/components/ssd1306/src/ssd1306_hal/esp/platform.c:47-231 | Over any calls at all, every queued byte is committed in order with the level at its queueing if and only if no start finds bytes queued |
| SpiCache.WireIsQueue | esp32-powermeter-udp-server/components/ssd1306/src/ssd1306_hal/esp/platform.c:47-231 | In every well-bracketed run the wire carries exactly the queued bytes, each with its level at queueing, and the cache ends empty |
| SpiLink.WireDrives | esp32-powermeter-udp-server/components/ssd1306/src/ssd1306_hal/esp/platform.c:47-231 | In every well-bracketed run the controller that has seen the wire is where the calls would have put it at once |
| SpiLink.BlockDirect | esp32-powermeter-udp-server/components/ssd1306/src/lcd/oled_ssd1306.c:86-113 | The calls of setBlock over SPI leave the controller with exactly the requested window |
| SpiLink.BlitThroughCache | esp32-powermeter-udp-server/components/ssd1306/src/lcd/oled_ssd1306.c:86-113 | A block and its pixel bytes sent through the SPI cache put each byte at its page and column of the controller and change nothing else |
| InitProgram.ConfigureSpiDisplay2 | esp32-powermeter-udp-server/components/ssd1306/src/lcd/lcd_common.c:75-129 | Against any bus state, with or without a data/command pin, the loop makes exactly the calls of the interpreter's state machine between a start in command mode and a stop |
| InitProgram.Take | esp32-powermeter-udp-server/components/ssd1306/src/lcd/lcd_common.c:83-127 | One byte: the calls made and the next interpreter state |
| InitProgram.InterpretItem | esp32-powermeter-udp-server/components/ssd1306/src/lcd/lcd_common.c:83-127 | On the encoding of an item the interpreter makes exactly the item's calls and awaits a command again |
| InitProgram.InterpretCommand | esp32-powermeter-udp-server/components/ssd1306/src/lcd/lcd_common.c:83-127 | A code, a count below 128 and so many arguments send the code, switch to data mode, send the arguments and switch back |
| InitProgram.InterpretPause | esp32-powermeter-udp-server/components/ssd1306/src/lcd/lcd_common.c:83-95 | A code, 0xFF and a number send the code and wait so many milliseconds, or 500 for 0xFF |
| InitProgram.InterpretBare | esp32-powermeter-udp-server/components/ssd1306/src/lcd/lcd_common.c:96-118 | A code and a marker that is zero, or at least 128 but not 0xFF, send the code alone |
| InitProgram.ProgramExample | esp32-powermeter-udp-server/components/ssd1306/src/lcd/lcd_common.c:75-129 | A program with arguments, a bare command and a delay: its bytes, what the display is to see, and how long it waits |
| InitProgram.InterpretEncoded | esp32-powermeter-udp-server/components/ssd1306/src/lcd/lcd_common.c:75-129 | On the encoding of a program it makes exactly the program's calls |
| InitProgram.DisplaySeesProgram | esp32-powermeter-udp-server/components/ssd1306/src/lcd/lcd_common.c:75-129 | With a data/command pin the display receives exactly the program's commands in command mode and arguments in data mode, and the program's delays are made, for 0 to 127 arguments |
| InitProgram.DisplayWithoutPin | esp32-powermeter-udp-server/components/ssd1306/src/lcd/lcd_common.c:75-129 | Without one it receives the same bytes, all under the level the line happens to have |
| InitProgram.DelayBeforeItsCommand | esp32-powermeter-udp-server/components/ssd1306/src/lcd/lcd_common.c:86-95 | With the SPI cache behind it, a delay always begins before the command it follows has left the cache |
| Meter.ChannelsAreInputs | esp32-powermeter-udp-server/components/power_measurement/power_measurement.c:161-175 | Channels correspond one to one to the inputs of the sensors |
| Meter.Sampler.constructor | esp32-powermeter-udp-server/components/power_measurement/power_measurement.c:124-131 | Every channel starts with no charge at its own time |
| Meter.Sampler.SampleAll | esp32-powermeter-udp-server/components/power_measurement/power_measurement.c:72-76 | One pass leaves the measurements of sampling the channels in turn, each from the input it is connected to |
| Meter.PassIntegrates | esp32-powermeter-udp-server/components/power_measurement/power_measurement.c:72-76 | After one pass channel 3i + j + 1 has integrated input j of sensor i once |
| Meter.PassIsSteps | esp32-powermeter-udp-server/components/power_measurement/power_measurement.c:72-76 | The pass is a legal run of sampling steps of the pipeline when clocks do not run backwards, with the same measurements |
| Meter.IntegratedMeasures | esp32-powermeter-udp-server/components/power_measurement/power_measurement.c:103-122 | A measurement extended by a reading has as energy the sum of abs(I) * dt over all readings so far |
| Meter.SteadyCharge | esp32-powermeter-udp-server/components/power_measurement/power_measurement.c:103-122 | A current of steady size, in whatever direction, charges its size times the seconds that have passed |
| Meter.ChargeAddsUp | esp32-powermeter-udp-server/components/power_measurement/power_measurement.c:103-122 | The charge of two stretches of readings is the sum of their charges, the second from the last reading of the first |
| Meter.CounterWrapper.IncrementTo | prometheus-power-exporter/power_metrics.py:41-58 | Rejects negative and lower values and otherwise increments the Prometheus counter up to the value |
| Meter.CounterWrapper.UpdateMetrics | prometheus-power-exporter/power_metrics.py:35-37 | The energy is offered to the counter in ampere-seconds |
| Meter.OfferedIsHighest | prometheus-power-exporter/power_metrics.py:52-58 | Each offer keeps the counter at the highest value offered so far and never lowers it |
| Meter.HighestIsMaximum | prometheus-power-exporter/power_metrics.py:53-58 | That value is one of those offered, or zero, and none exceeds it |
| Meter.StepKeepsInv | powermeasurement-udp-client/udp_client.c:134-205 | Sampling, sending, receiving, replying field by field, updating and client restarts keep every value in flight at most the server's energy, and the counter never decreases |
| Meter.CounterIsSafe | prometheus-power-exporter/power_metrics.py:35-58 | In every interleaving with loss, duplication and reordering each channel's energy is the charge of its own readings, and the counter is the largest value accepted and at most the server's energy / 1000 |
| Meter.RunKeepsInv | prometheus-power-exporter/power_metrics.py:41-58 | In no run does the exported counter decrease |
| Meter.Delivers | powermeasurement-udp-client/udp_client.c:134-205 | From any such state with no reply being read: sending, receiving, reading field by field, replying and updating replies with the channel's measurement and leaves the counter at its energy / 1000, or where it was if that is higher |
| Meter.RepliesMix | powermeasurement-udp-client/udp_client.c:198-201 | A reply takes each field from the datagram that is the latest when the field is read, so datagrams that arrive in between are mixed |
| Meter.RestartRepliesZero | powermeasurement-udp-client/udp_client.c:134-205 | A client that has restarted replies with zeroes until the next datagram, and these do not change the counter |
| Menu.ScrollShowsSelection | esp32-powermeter-udp-server/components/ssd1306/src/ssd1306_menu.c:58-69 | The scroll position shows the selection if and only if there is at least one line |
| Menu.ScrollMovesLeast | esp32-powermeter-udp-server/components/ssd1306/src/ssd1306_menu.c:58-69 | No window that shows the selection is nearer to the old one than the one scrolled to |
| Menu.MoreLinesThanItems | esp32-powermeter-udp-server/components/ssd1306/src/ssd1306_menu.c:39-42 | The display has at least one item, and always more lines of text than items |
| Menu.GeometryFits | esp32-powermeter-udp-server/components/ssd1306/src/ssd1306_menu.c:39-42 | The window has as many items as fit below 16 rows, and a line as many characters as fit right of column 8 |
| Menu.AppMenu.constructor | esp32-powermeter-udp-server/components/ssd1306/src/ssd1306_menu.c:49-56 | A new menu on a blank screen selects its first item and is not scrolled |
| Menu.AppMenu.DrawMenuItem | esp32-powermeter-udp-server/components/ssd1306/src/ssd1306_menu.c:84-96 | The label is printed from its line on, wrapping into the lines below, highlighted if selected; all other character cells stay |
| Menu.AppMenu.ShowMenu | esp32-powermeter-udp-server/components/ssd1306/src/ssd1306_menu.c:126-135 | The window scrolls no further than it must to show the selection (Menu.ScrollMovesLeast), and the loop prints its items one after the other, each over what earlier ones left |
| Menu.AppMenu.UpdateMenu | esp32-powermeter-udp-server/components/ssd1306/src/ssd1306_menu.c:159-176 | When the selection has changed: two items are printed if the window still shows it, otherwise everything on a cleared screen with the window scrolled no further than it must |
| Menu.AppMenu.MenuDown | esp32-powermeter-udp-server/components/ssd1306/src/ssd1306_menu.c:221-231 | The selection moves down and wraps |
| Menu.AppMenu.MenuUp | esp32-powermeter-udp-server/components/ssd1306/src/ssd1306_menu.c:233-243 | The selection moves up and wraps |
| Menu.StepIsValid | esp32-powermeter-udp-server/components/ssd1306/src/ssd1306_menu.c:159-243 | For all labels every call keeps the item drawn last in the window and the window inside the list |
| Menu.RunDown | esp32-powermeter-udp-server/components/ssd1306/src/ssd1306_menu.c:221-231 | Moving down n times selects item (selection + n) modulo the number of items |
| Menu.RunUp | esp32-powermeter-udp-server/components/ssd1306/src/ssd1306_menu.c:233-243 | Moving up n times selects item (selection - n) modulo the number of items |
| Menu.ShownCells | esp32-powermeter-udp-server/components/ssd1306/src/ssd1306_menu.c:84-135 | A menu shown on a blank screen: character k of each item of the window stands k cells after the beginning of its line, highlighted when the item is selected, and nothing else is on the screen |
| Menu.UpdateIsFullRedraw | esp32-powermeter-udp-server/components/ssd1306/src/ssd1306_menu.c:126-243 | In every run of a new menu each update leaves exactly the character cells that showing the menu on a blank screen would, if and only if no two items that can be in the window together are printed on a common cell |
| Menu.ApartSuffices | esp32-powermeter-udp-server/components/ssd1306/src/ssd1306_menu.c:126-243 | Under that condition this holds from any blank screen, scroll position and selection |
| Menu.OverlapFails | esp32-powermeter-udp-server/components/ssd1306/src/ssd1306_menu.c:171-173 | Otherwise selecting the lower and then the upper of two overlapping items leaves another screen than a full redraw |
| Menu.LabelsFitOneLine | esp32-powermeter-udp-server/components/ssd1306/src/ssd1306_menu.c:84-96 | For labels that are not empty and two or more visible items the condition says that all labels but the last fit into one line |
| Menu.LongLabelFails | esp32-powermeter-udp-server/components/ssd1306/src/ssd1306_menu.c:159-176 | A concrete failing run: a label of 21 characters above another on a 128 by 64 display with a 6 by 8 font; down, update, up, update |

## Left out

- Canvas1.Canvas.FillRect: requires the clipped right edge to stay below column 255, because the `uint8_t` column counter of canvas.cpp:329 never passes it; the loop does not end otherwise.
- Canvas1.Canvas.DrawBitmap1: requires heights up to 2032 and widths and positions within `int16_t`, because the page counters are `uint8_t` and the horizontal test casts to `int16_t`.
- Tiles.Tiler.RefreshRect: requires the right edge to lie left of tile column 31, because the shift of canvas flags by 31 or more is undefined in C.
- Tiles.MarkIsExact: for corners given in order, left of and above cell 256, where the `uint8_t` loop counters do not wrap.
- Tiles.Tiler.RefreshWorld: the same as for RefreshRect, in world coordinates.
- Runs.FixedSprite.Refresh: the same for the sprite's rectangle.
- Runs.FixedSprite.MoveTo: the same for its old and new rectangles.
- Runs.FixedSprite.MoveBy: the same for its old and new rectangles.
- Runs.Stage.MoveSprite: the same for its old and new rectangles.
- Canvas1.Canvas.Draw: states the per-pixel meaning, and so requires of bitmap calls the exact condition under which they have it; Canvas1.Canvas.DrawBitmap1 and Canvas1.Canvas.DrawXBitmap1 say what happens otherwise.
- Canvas1.Canvas.Play: the same for each call of the list.
- Canvas1.Canvas.Paint: the same for each call of the scene.
- Tiles.Tiler.DisplayBuffer: requires such scenes on every tile, which Tiles.TileableScene gives for a syntactic class of them; a tiler without a callback, which only copies its canvas, is not modelled.
- Tiles.Tiler.ShowTile: the same for one tile.
- Runs.Stage.DisplayBuffer: the same for the scene of the stage.
- Text.Printer.PrintFixedN: normal style, ASCII text under 255 bytes, a fixed font that has every character, and at least one glyph that fits; bold and italic styles, the empty string and UTF-8 text through this routine are not modelled.
- Combiner.Combiner.DrawLine: requires all points on the display, which holds for end points on it with different extents; the wrap of `uint8_t` coordinates is not modelled.
- Menu.AppMenu.DrawMenuItem: a fixed font, in which every character takes one cell, and labels of decoded characters under 255; an empty label in a font of several pages, which is read past its end, is excluded. A highlighted character counts as different from a plain one. The frame is drawn before the items in every full redraw and is not modelled.
- Meter.CounterIsSafe: no restart of the server or the exporter, both of which reset their sums; a datagram is an atomic value.
- Coordinates are mathematical integers, as `lcdint_t` is `int` on this platform; narrower `uint8_t`, `uint16_t` and `int16_t` arithmetic is written out where it can matter.
- Energy and counters are real numbers; floating-point rounding is not modelled.
- Canvas heights are multiples of 8, display sizes multiples of the tile size, as the engine assumes.
- The text mode flags of a canvas appear as one transparency flag; the cursor and the text methods of a canvas are not modelled.
- The 4-bit canvas, drawBitmap8, and the lines of the colour canvases: they repeat the patterns proved here or depart from the pixel meaning.
- `ssd1306_getU16CharGlyph` and the squix font format, which choose between lookups modelled here or index one table.
- On the direct display path, `ssd1306_drawHLine`, `ssd1306_drawVLine`, `ssd1306_printFixed`, `ssd1306_printFixed2x` and `gfx_drawMonoBitmap`: single-page or unscaled variants of routines modelled here.
- NanoSprite, NanoCanvas and SpritePool, the popup, the progress bar, console scrolling and the 8-bit and 16-bit menus.
- `platform_spi_send_buffer`, which calls the I2C sender, so that SpiLink sends pixel bytes one by one; and the registration of the SPI device at the first start.
- The client's latest value is a field of the pipeline's state rather than an object, because its two threads interleave.
- Which client is served which channel at task start, sockets, tasks, WiFi, configuration files and message serialisation.
