# Shape classification and caption loop of geoRecognize

geoRecognize is an Android app. The user picks a photo, and the app outlines the
geometric shapes it finds and shows a caption that names them. The OpenCV calls
do edge detection, contour extraction and polygon approximation. The one piece
of decision logic is the loop in `FigureDetection` that runs over the contours.
For each contour it reads the vertex count of the approximated polygon and, for
four vertices, the bounding box of the contour. From these it picks a shape
label, extends the caption and decides whether to draw the contours.

This project models that loop in two modules:

- `Shapes` (`shapes.dfy`) covers one contour. `Measurement` holds what the
  vision library hands the loop: the vertex count and the bounding-box width
  and height. `Classify` is the if/else chain, tested in the source's order
  (5, 3, 4 with the aspect test, 10, 11..15, above 15, anything else).
  `Token` gives the text each label appends.
- `Caption` (`caption.dfy`) covers the loop. The method `FigureDetection`
  starts from the header `"Figures recognized: \n"` and walks the contours with
  a caption variable and a draw counter. A recognized contour appends its
  token and adds a draw. Any other contour overwrites the caption with
  `"Shape not recognized!"` and adds no draw. Two specification functions
  describe the result. `CaptionOf` is a closed form: the header and every
  token when all contours are recognized; otherwise the message, then the
  tokens of the contours after the last one that is not recognized.
  `CountDraws` counts the contours whose vertex count is in
  {3, 4, 5, 10} ∪ [11, ∞). The method is proved to return exactly these.
  The lemmas give the other properties.

The aspect test is modelled in integers as `9*h <= 10*w && 10*w <= 11*h`, with
`h > 0`. `SquareAspectIsRatioTest` proves this equals the real-number test
`0.9 <= w/h <= 1.1`, with both bounds inclusive. The source compares Kotlin
`Double`s. Bounding-box sides are 32-bit integers, which convert to `Double`
exactly, and correctly rounded division is monotone. The gap between
`w/h` and 0.9 or 1.1 is at least `1/(10h)`, far more than one unit in the last
place. And `9/10` and `11/10` round to the same doubles as the literals `0.9`
and `1.1`. So the exact test and the floating-point test agree. A zero height
cannot come from a contour. If it did, the ratio would be +∞ for a positive
width (so `ratio <= 1.1` fails) or NaN for a zero width (so both comparisons
fail). Either way the test fails, giving "Rectangle". The model gives the same
by requiring `h > 0` for a square.

Three details of the code are easy to misread:

- the header ends in a space and a newline;
- `drawContours` is passed the whole contour list with index −1, so every call
  repaints all contours, not just the current one;
- after the message has been written, later recognized labels are appended
  directly after it (`"Shape not recognized!Triangle "`) rather than the
  message staying alone.

## Model

| member | source | states |
|---|---|---|
| Shapes.Classify | app/src/main/java/com/example/test1/MainActivity.kt:120-150 | the chain is total; it falls into the final "else" (not recognized) exactly for vertex counts below 3 and from 6 to 9 |
| Shapes.Token | app/src/main/java/com/example/test1/MainActivity.kt:123-146 | the text each recognized label appends is one word followed by a single space, the separator between labels |
| Shapes.TokenInjective | app/src/main/java/com/example/test1/MainActivity.kt:123-146 | no two labels append the same text, so the caption tells the labels apart |
| Shapes.SquareAspect | app/src/main/java/com/example/test1/MainActivity.kt:132-133 | the aspect test passes for a box with equal positive sides and only for boxes with positive width and height (its ratio meaning is SquareAspectIsRatioTest) |
| Shapes.ClassifyTable | app/src/main/java/com/example/test1/MainActivity.kt:122-150 | the decision table in both directions: Pentagon iff 5, Triangle iff 3, Square iff 4 and 0.9 <= w/h <= 1.1, Rectangle iff 4 and not that, Half-Circle iff 10, Multi-Angle iff 11..15, Circle iff at least 16 |
| Shapes.SquareAspectIsRatioTest | app/src/main/java/com/example/test1/MainActivity.kt:129-137 | the integer aspect test equals the ratio test 0.9 <= width/height <= 1.1, both bounds inclusive, and fails for a zero height |
| Shapes.GuardsDisjoint | app/src/main/java/com/example/test1/MainActivity.kt:122-150 | no two guards of the chain hold together, so their order does not matter, and the "else" is taken exactly when none holds |
| Shapes.DegenerateIsUnrecognized | app/src/main/java/com/example/test1/MainActivity.kt:148-149 | a polygon with fewer than three vertices is not an error; it is "not recognized" |
| Shapes.AspectBoundaries | app/src/main/java/com/example/test1/MainActivity.kt:132-137 | ratios of exactly 0.9 and 1.1 are squares; 0.89 and 1.11 are rectangles |
| Shapes.VertexBoundaries | app/src/main/java/com/example/test1/MainActivity.kt:139-149 | 10 gives Half-Circle, 11 and 15 give Multi-Angle, 16 gives Circle, 2 is not recognized, whatever the bounding box |
| Caption.FigureDetection | app/src/main/java/com/example/test1/MainActivity.kt:106-151 | the loop returns the caption CaptionOf(contours) and a draw count equal to the number of contours whose vertex count is in {3, 4, 5, 10} ∪ [11, ∞) |
| Caption.Draws | app/src/main/java/com/example/test1/MainActivity.kt:122-150 | the vertex counts whose branch calls drawContours are exactly those the classifier recognizes, for every bounding box |
| Caption.DrawsIffRecognized | app/src/main/java/com/example/test1/MainActivity.kt:122-150 | a contour causes a drawContours call exactly when it is recognized |
| Caption.LastUnrecognizedIsLast | app/src/main/java/com/example/test1/MainActivity.kt:148-149 | the index the closed form starts from is the last contour that is not recognized; every contour after it is recognized, and if there is none, all are |
| Caption.CaptionStep | app/src/main/java/com/example/test1/MainActivity.kt:113-151 | one iteration: a recognized contour appends exactly its token to the caption so far; any other contour makes the caption exactly the message |
| Caption.CaptionStepUnrecognized | app/src/main/java/com/example/test1/MainActivity.kt:148-149 | an unrecognized contour replaces the whole caption by "Shape not recognized!" |
| Caption.CaptionStepBeforeWipe | app/src/main/java/com/example/test1/MainActivity.kt:122-147 | before any unrecognized contour, a recognized one appends its token after the header and the earlier tokens |
| Caption.CaptionStepAfterWipe | app/src/main/java/com/example/test1/MainActivity.kt:142-149 | after an unrecognized contour, a recognized one appends its token after the message and the tokens since then |
| Caption.DrawsCountLabels | app/src/main/java/com/example/test1/MainActivity.kt:122-150 | the number of draws equals the number of labels put in the caption |
| Caption.NoContours | app/src/main/java/com/example/test1/MainActivity.kt:107-113 | with no contours the caption is the header and nothing is drawn |
| Caption.AllRecognizedLabels | app/src/main/java/com/example/test1/MainActivity.kt:113-147 | when every contour is recognized there is one label per contour, in contour order, and one draw per contour |
| Caption.AllRecognizedCaption | app/src/main/java/com/example/test1/MainActivity.kt:107-151 | when every contour is recognized the caption is the header followed by each contour's token in order, and the draw count is the number of contours |
| Caption.AppendRecognized | app/src/main/java/com/example/test1/MainActivity.kt:113-147 | recognized contours only append their tokens, in order, to whatever caption the earlier contours left |
| Caption.UnrecognizedForgetsPrefix | app/src/main/java/com/example/test1/MainActivity.kt:148-149 | once a contour is not recognized, the contours before it have no effect on the final caption |
| Caption.RecognizedAfterMessage | app/src/main/java/com/example/test1/MainActivity.kt:142-149 | the recognized contours after an unrecognized one have their tokens appended to the message, with nothing between |
| Caption.UnrecognizedStartsWithMessage | app/src/main/java/com/example/test1/MainActivity.kt:107-149 | if any contour is not recognized, the final caption starts with the message and not with the header |
| Caption.SingleContour | app/src/main/java/com/example/test1/MainActivity.kt:107-151 | one recognized contour gives the header followed by its token |
| Caption.TwoContours | app/src/main/java/com/example/test1/MainActivity.kt:107-151 | two recognized contours give the header and their tokens in contour order |
| Caption.ScenarioTriangle | app/src/main/java/com/example/test1/MainActivity.kt:107-127 | a single triangle gives "Figures recognized: \nTriangle " |
| Caption.ScenarioSquareCircle | app/src/main/java/com/example/test1/MainActivity.kt:107-147 | a four-vertex contour with 0.9 <= width/height <= 1.1 followed by one with at least 16 vertices gives "Figures recognized: \nSquare Circle " |

## Left out

- `makeGray`, `Utils.bitmapToMat` and `Utils.matToBitmap`, `Imgproc.Canny`, `findContours`, `convertTo`, `arcLength`, `approxPolyDP` and `boundingRect` are OpenCV calls on pixel buffers and floating-point points. Their results enter the model as the vertex count and the bounding-box width and height in `Measurement`.
- The 0.01 × perimeter tolerance passed to `approxPolyDP` is a floating-point input to a library routine. It is folded into the vertex count.
- Caption.FigureDetection: models how many times `drawContours` is called, not what it paints into the grayscale buffer. The buffer update, the colour (0, 255, 255), the thickness 10 and the repainting of every contour on each call are pixel effects of a library call.
- The `Double` ratio is modelled by exact arithmetic, for the reasons given above. Floating-point rounding is not modelled.
- `ScreenCompose`, `SelectImage`, `selectImgPrev` and `MainActivity.onCreate` are Compose UI, image-decoder I/O and the OpenCV loader check. None of them is part of this model.
- Caption.FigureDetection: returns the caption and the draw count, not the `Pair` of bitmap and caption. The bitmap is the pixel buffer left out above.
