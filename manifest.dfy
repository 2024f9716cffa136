/**
 * The records the content processor writes to `projects.json` and the
 * projects page reads back from `/api/projects`.
 */
module Manifest {
  import opened Wrappers

  /** One converted image: the full-size file, its thumbnail and the alternative text. */
  datatype Image = Image(src: string, thumbnail: string, alt: string)

  /** One project, as built by the content processor. */
  datatype Project = Project(
    id: string,
    title: string,
    description: string,
    category: string,
    year: int,
    location: string,
    images: seq<Image>,
    thumbnail: Option<Image>,
    slug: string)
}
