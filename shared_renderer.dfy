/**
 * The geometry of `OpenGLRenderer`: the aspect-fit scale of the video quad, its four
 * vertices, the index buffer, and the texture size it remembers.
 *
 * Sizes are Rust's `u32`; the `f32` arithmetic is modelled on `real`. The GL calls
 * themselves are not modelled: the vertex buffer is a field the renderer rewrites.
 */
module SharedRenderer {
  import opened Common

  /** One vertex as laid out in the buffer: position (x, y), then texture coordinate (u, v). */
  datatype Vertex = Vertex(x: real, y: real, u: real, v: real)

  /** How far the quad reaches from the centre, as a fraction of the window, per axis. */
  datatype Scale = Scale(x: real, y: real)

  /** Width over height. */
  function Aspect(width: u32, height: u32): real
    requires height > 0
  {
    width as real / height as real
  }

  /**
   * The scale in `render`: a window wider than the frame keeps the full height (bars left
   * and right), otherwise the full width is kept (bars above and below).
   */
  function AspectFitScale(frameAspect: real, windowAspect: real): (s: Scale)
    requires frameAspect >= 0.0 && windowAspect >= 0.0
    requires frameAspect > 0.0 || windowAspect > 0.0
    ensures windowAspect > frameAspect ==> s.y == 1.0
    ensures windowAspect <= frameAspect ==> s.x == 1.0
    ensures 0.0 <= s.x <= 1.0 && 0.0 <= s.y <= 1.0
    // a zero-width frame or window shrinks that axis to nothing
    ensures frameAspect == 0.0 ==> s.x == 0.0
    ensures windowAspect == 0.0 ==> s.y == 0.0
    // for a non-degenerate frame and window the quad is visible and has the frame's shape
    ensures frameAspect > 0.0 && windowAspect > 0.0 ==>
              s.x > 0.0 && s.y > 0.0 && s.x * windowAspect == s.y * frameAspect
  {
    if windowAspect > frameAspect then
      RatioAtMostOne(frameAspect, windowAspect);
      Scale(frameAspect / windowAspect, 1.0)
    else
      RatioAtMostOne(windowAspect, frameAspect);
      Scale(1.0, windowAspect / frameAspect)
  }

  lemma RatioAtMostOne(a: real, b: real)
    requires 0.0 <= a <= b && b > 0.0
    ensures 0.0 <= a / b <= 1.0
    ensures a > 0.0 ==> a / b > 0.0
  {
    assert a / b * b == a;
  }

  /** The quad's vertices, in buffer order: top right, bottom right, bottom left, top left. */
  function QuadVertices(s: Scale): (vs: seq<Vertex>)
    ensures |vs| == 4
    // the texture's four corners, each used once
    ensures forall c :: 0 <= c < 4 ==> vs[c].u in {0.0, 1.0} && vs[c].v in {0.0, 1.0}
    ensures forall c, d :: 0 <= c < d < 4 ==> (vs[c].u, vs[c].v) != (vs[d].u, vs[d].v)
    // every corner sits at (+-x, +-y), on the side its texture coordinate names: u = 1 on the
    // right, v = 0 (the first row of the frame) at the top, so the image is not mirrored
    ensures forall c :: 0 <= c < 4 ==>
              vs[c].x == (2.0 * vs[c].u - 1.0) * s.x && vs[c].y == (1.0 - 2.0 * vs[c].v) * s.y
  {
    [Vertex(s.x, s.y, 1.0, 0.0),
     Vertex(s.x, -s.y, 1.0, 1.0),
     Vertex(-s.x, -s.y, 0.0, 1.0),
     Vertex(-s.x, s.y, 0.0, 0.0)]
  }

  /** The element buffer: two triangles over the four vertices. */
  const Indices: seq<nat> := [0, 1, 3, 1, 2, 3]

  /**
   * The two triangles use only the four vertices, cover all of them, and share exactly
   * the edge 1-3, which joins opposite corners of the quad: together they tile it.
   */
  lemma IndicesTileQuad(s: Scale)
    ensures forall i :: 0 <= i < |Indices| ==> Indices[i] < 4
    ensures {Indices[0], Indices[1], Indices[2]} * {Indices[3], Indices[4], Indices[5]} == {1, 3}
    ensures {Indices[0], Indices[1], Indices[2]} + {Indices[3], Indices[4], Indices[5]} == {0, 1, 2, 3}
    ensures var vs := QuadVertices(s); vs[1].u != vs[3].u && vs[1].v != vs[3].v
  {
  }

  class OpenGLRenderer {
    var width: u32
    var height: u32
    /** The contents of the vertex buffer object. */
    var vbo: seq<Vertex>

    /** `OpenGLRenderer::new`: no texture yet (0x0) and a quad filling the window. */
    constructor ()
      ensures width == 0 && height == 0
      ensures vbo == QuadVertices(Scale(1.0, 1.0))
    {
      width, height := 0, 0;
      vbo := [Vertex(1.0, 1.0, 1.0, 0.0),
              Vertex(1.0, -1.0, 1.0, 1.0),
              Vertex(-1.0, -1.0, 0.0, 1.0),
              Vertex(-1.0, 1.0, 0.0, 0.0)];
    }

    /** `update_texture`: remembers the uploaded frame's size. */
    method UpdateTexture(data: seq<byte>, width: u32, height: u32)
      modifies this
      ensures this.width == width && this.height == height && vbo == old(vbo)
    {
      this.width := width;
      this.height := height;
    }

    /**
     * `render` into a window of the given size: rewrites the vertex buffer with the quad
     * scaled to fit the frame into the window without distortion. The frame and window
     * heights must be positive (a renderer that has seen no frame is 0x0).
     */
    method Render(windowWidth: u32, windowHeight: u32)
      requires height > 0 && windowHeight > 0
      requires width > 0 || windowWidth > 0
      modifies this
      ensures width == old(width) && height == old(height)
      ensures vbo == QuadVertices(AspectFitScale(Aspect(width, height), Aspect(windowWidth, windowHeight)))
    {
      var frameAspect := width as real / height as real;
      var windowAspect := windowWidth as real / windowHeight as real;
      var scale := if windowAspect > frameAspect
                   then Scale(frameAspect / windowAspect, 1.0)
                   else Scale(1.0, windowAspect / frameAspect);
      vbo := [Vertex(scale.x, scale.y, 1.0, 0.0),
              Vertex(scale.x, -scale.y, 1.0, 1.0),
              Vertex(-scale.x, -scale.y, 0.0, 1.0),
              Vertex(-scale.x, scale.y, 0.0, 0.0)];
    }
  }

  /**
   * Rendering a frame into a window keeps the frame's aspect ratio: the quad's width over
   * its height, in pixels, is the frame's width over its height.
   */
  lemma RenderKeepsAspect(frameWidth: u32, frameHeight: u32, windowWidth: u32, windowHeight: u32)
    requires frameWidth > 0 && frameHeight > 0 && windowWidth > 0 && windowHeight > 0
    ensures var s := AspectFitScale(Aspect(frameWidth, frameHeight), Aspect(windowWidth, windowHeight));
            s.x > 0.0 && s.y > 0.0 &&
            (s.x * windowWidth as real) / (s.y * windowHeight as real) == frameWidth as real / frameHeight as real
  {
    var fa, wa := Aspect(frameWidth, frameHeight), Aspect(windowWidth, windowHeight);
    var s := AspectFitScale(fa, wa);
    var W, H := windowWidth as real, windowHeight as real;
    assert s.x * wa == s.y * fa;
    assert wa * H == W;
    assert s.x * W == s.y * fa * H;
    assert fa == frameWidth as real / frameHeight as real;
  }
}
