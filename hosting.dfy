/**
 * The hosting controller a cell or supplementary view keeps across update
 * passes. Its generic content type is reduced to a tag fixed at creation; a
 * cast to `ASHostingController<Wrapped>` succeeds exactly when the tags agree.
 */
module Hosting {

  /** The name of a view's static Swift type. */
  type TypeTag = string

  class HostingController<V> {
    /** The `Wrapped` the controller was created for. */
    const contentType: TypeTag
    var view: V
    var disableSwiftUIDropInteraction: bool
    var disableSwiftUIDragInteraction: bool

    constructor (contentType: TypeTag, view: V)
      ensures this.contentType == contentType && this.view == view
      ensures !disableSwiftUIDropInteraction && !disableSwiftUIDragInteraction
    {
      this.contentType := contentType;
      this.view := view;
      disableSwiftUIDropInteraction := false;
      disableSwiftUIDragInteraction := false;
    }

    /** `setView`: replaces the content, keeping the controller and its flags. */
    method SetView(v: V)
      modifies this`view
      ensures view == v
    {
      view := v;
    }
  }

  /** `hc as? ASHostingController<Wrapped>` succeeds. */
  predicate IsHostFor<V>(hc: HostingController?<V>, contentType: TypeTag)
  {
    hc != null && hc.contentType == contentType
  }
}
